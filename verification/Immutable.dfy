/**
 * Reading a block out of the immutable database by slot (src/storage/immutable.rs): the primary index of a chunk
 * gives the place of the slot's entry in the secondary index, and that entry the place of the block in the chunk.
 */
module Immutable {
  import opened Arithmetic
  import opened Wrappers
  import opened Cbor

  /** The three files of one chunk; a missing file is `None`. */
  datatype ChunkFiles = ChunkFiles(primary: Option<Bytes>, secondary: Option<Bytes>, chunk: Option<Bytes>)

  datatype ImmutableDb = ImmutableDb(chunkSize: nat, files: map<nat, ChunkFiles>)

  datatype Error =
    | NoPrimary
    | PrimaryTooSmall
    | Panic
    | SlotNotFound
    | NoSecondary
    | EntryOutOfBounds
    | NoChunk
    | ShortRead
    | ChecksumMismatch

  type U32 = n: nat | n < 0x1_0000_0000

  /** The CRC-32 of a block, whatever it is. */
  type Crc = Bytes -> U32

  const ENTRY_SIZE: nat := 56

  datatype PrimaryIndex = PrimaryIndex(version: nat, offsets: seq<nat>)

  datatype SecondaryEntry = SecondaryEntry(blockOffset: nat, headerOffset: nat, headerSize: nat, checksum: nat,
                                           headerHash: Bytes)

  /** u64 `-` as a release build computes it. */
  function WrappingSub(a: nat, b: nat): nat {
    (a - b) % (U64_MAX + 1)
  }

  // ---- The reader ----------------------------------------------------------------------------

  function OffsetAt(primary: Bytes, i: nat): nat
    requires 4 * i + 8 <= |primary|
  {
    BigEndian(primary[4 * i + 4..4 * i + 8])
  }

  function OffsetCount(primary: Bytes): nat
    requires |primary| >= 4
  {
    (|primary| - 4) / 4
  }

  function LoadPrimary(file: Option<Bytes>): Result<PrimaryIndex, Error> {
    if file.None? then Err(NoPrimary)
    else if |file.value| < 4 then Err(PrimaryTooSmall)
    else Ok(PrimaryIndex(BigEndian(file.value[..4]), seq(OffsetCount(file.value),
                           i requires 0 <= i < OffsetCount(file.value) => OffsetAt(file.value, i))))
  }

  /** Where the secondary entry of a slot starts; an index without any offset makes the source panic. */
  function LookupSlot(primary: PrimaryIndex, relative: nat): Result<nat, Error> {
    if primary.offsets == [] then Err(Panic)
    else if relative >= |primary.offsets| - 1 || primary.offsets[relative] == primary.offsets[relative + 1]
    then Err(SlotNotFound)
    else Ok(primary.offsets[relative])
  }

  function ParseEntry(bytes: Bytes): SecondaryEntry
    requires |bytes| >= ENTRY_SIZE
  {
    SecondaryEntry(BigEndian(bytes[0..8]), BigEndian(bytes[8..10]), BigEndian(bytes[10..12]), BigEndian(bytes[12..16]),
                   bytes[16..48])
  }

  /** The size of the block of the entry at `start`: up to the next entry's block, or to the end of the chunk file. */
  function BlockSize(secondary: Bytes, start: nat, chunk: Option<Bytes>): Result<nat, Error>
    requires start + ENTRY_SIZE <= |secondary|
  {
    var entry := ParseEntry(secondary[start..start + ENTRY_SIZE]);
    var next := start + ENTRY_SIZE;
    if next + ENTRY_SIZE <= |secondary|
    then Ok(WrappingSub(ParseEntry(secondary[next..next + ENTRY_SIZE]).blockOffset, entry.blockOffset))
    else if chunk.None? then Err(NoChunk)
    else Ok(WrappingSub(|chunk.value|, entry.blockOffset))
  }

  function ReadExact(chunk: Option<Bytes>, offset: nat, size: nat): Result<Bytes, Error> {
    if chunk.None? then Err(NoChunk)
    else if offset + size <= |chunk.value| then Ok(chunk.value[offset..offset + size])
    else if size == 0 then Ok([])
    else Err(ShortRead)
  }

  function ReadEntry(files: ChunkFiles, start: nat, crc: Crc): Result<Bytes, Error> {
    if files.secondary.None? then Err(NoSecondary) else
    var secondary := files.secondary.value;
    if start + ENTRY_SIZE > |secondary| then Err(EntryOutOfBounds) else
    var entry := ParseEntry(secondary[start..start + ENTRY_SIZE]);
    var size := BlockSize(secondary, start, files.chunk);
    if size.Err? then Err(size.error) else
    var block := ReadExact(files.chunk, entry.blockOffset, size.value % 0x1_0000_0000);
    if block.Err? then block
    else if crc(block.value) != entry.checksum then Err(ChecksumMismatch)
    else block
  }

  function ReadFromChunk(files: ChunkFiles, relative: nat, crc: Crc): Result<Bytes, Error> {
    var primary := LoadPrimary(files.primary);
    if primary.Err? then Err(primary.error) else
    var start := LookupSlot(primary.value, relative);
    if start.Err? then Err(start.error) else ReadEntry(files, start.value, crc)
  }

  function FilesOf(db: ImmutableDb, chunkNo: nat): ChunkFiles {
    if chunkNo in db.files then db.files[chunkNo] else ChunkFiles(None, None, None)
  }

  method Load(file: Option<Bytes>) returns (r: Result<PrimaryIndex, Error>)
    ensures r == LoadPrimary(file)
  {
    if file.None? {
      return Err(NoPrimary);
    }
    var bytes := file.value;
    if |bytes| < 4 {
      return Err(PrimaryTooSmall);
    }
    var count := (|bytes| - 4) / 4;
    var offsets := [];
    for i := 0 to count
      invariant |offsets| == i && forall j :: 0 <= j < i ==> offsets[j] == OffsetAt(bytes, j)
    {
      var start := 4 + i * 4;
      offsets := offsets + [BigEndian(bytes[start..start + 4])];
    }
    assert offsets == LoadPrimary(file).value.offsets;
    return Ok(PrimaryIndex(BigEndian(bytes[..4]), offsets));
  }

  method Parse(bytes: Bytes) returns (entry: SecondaryEntry)
    requires |bytes| >= ENTRY_SIZE
    ensures entry == ParseEntry(bytes)
  {
    var pos := 0;
    var blockOffset := BigEndian(bytes[pos..pos + 8]);
    pos := pos + 8;
    var headerOffset := BigEndian(bytes[pos..pos + 2]);
    pos := pos + 2;
    var headerSize := BigEndian(bytes[pos..pos + 2]);
    pos := pos + 2;
    var checksum := BigEndian(bytes[pos..pos + 4]);
    pos := pos + 4;
    var headerHash := bytes[pos..pos + 32];
    entry := SecondaryEntry(blockOffset, headerOffset, headerSize, checksum, headerHash);
  }

  /** `ImmutableDB::read_block`. */
  method ReadBlock(db: ImmutableDb, slot: nat, crc: Crc) returns (r: Result<Bytes, Error>)
    requires db.chunkSize > 0
    ensures r == ReadFromChunk(FilesOf(db, slot / db.chunkSize), slot % db.chunkSize, crc)
  {
    hide LoadPrimary, ParseEntry, WrappingSub;
    var chunkNo, relative := slot / db.chunkSize, slot % db.chunkSize;
    var files := FilesOf(db, chunkNo);
    var primary := Load(files.primary);
    if primary.Err? {
      return Err(primary.error);
    }
    var found := LookupSlot(primary.value, relative);
    if found.Err? {
      return Err(found.error);
    }
    if files.secondary.None? {
      return Err(NoSecondary);
    }
    var secondary := files.secondary.value;
    var entryStart := found.value;
    var entryEnd := entryStart + ENTRY_SIZE;
    if entryEnd > |secondary| {
      return Err(EntryOutOfBounds);
    }
    var entry := Parse(secondary[entryStart..entryEnd]);
    var size;
    if entryEnd + ENTRY_SIZE <= |secondary| {
      var next := Parse(secondary[entryEnd..entryEnd + ENTRY_SIZE]);
      size := WrappingSub(next.blockOffset, entry.blockOffset);
    } else {
      if files.chunk.None? {
        return Err(NoChunk);
      }
      size := WrappingSub(|files.chunk.value|, entry.blockOffset);
    }
    var block := ReadExact(files.chunk, entry.blockOffset, size % 0x1_0000_0000);
    if block.Ok? && crc(block.value) != entry.checksum {
      return Err(ChecksumMismatch);
    }
    return block;
  }

  // ---- The layout of a chunk -----------------------------------------------------------------

  /** A block with the parts of its secondary entry the layout does not determine. */
  datatype Stored = Stored(block: Bytes, headerOffset: nat, headerSize: nat, headerHash: Bytes, blockNo: nat)

  predicate ValidStored(s: Stored) {
    |s.headerHash| == 32 && |s.block| < 0x1_0000_0000
  }

  type Slots = seq<Option<Stored>>

  function Filled(slots: Slots): nat {
    if slots == [] then 0 else Filled(slots[..|slots| - 1]) + if slots[|slots| - 1].Some? then 1 else 0
  }

  function ChunkBytes(slots: Slots): Bytes {
    if slots == [] then [] else
    var last := slots[|slots| - 1];
    ChunkBytes(slots[..|slots| - 1]) + if last.Some? then last.value.block else []
  }

  function EntryBytes(offset: nat, s: Stored, crc: Crc): Bytes {
    ToBigEndian(offset, 8) + ToBigEndian(s.headerOffset, 2) + ToBigEndian(s.headerSize, 2)
    + ToBigEndian(crc(s.block), 4) + s.headerHash + ToBigEndian(s.blockNo, 8)
  }

  function SecondaryBytes(slots: Slots, crc: Crc): Bytes {
    if slots == [] then [] else
    var front, last := slots[..|slots| - 1], slots[|slots| - 1];
    SecondaryBytes(front, crc) + if last.Some? then EntryBytes(|ChunkBytes(front)|, last.value, crc) else []
  }

  /** Where the entries of the slots so far end, once before the first slot and once after each. */
  function PrimaryOffsets(slots: Slots): Bytes {
    (if slots == [] then [] else PrimaryOffsets(slots[..|slots| - 1])) + ToBigEndian(ENTRY_SIZE * Filled(slots), 4)
  }

  function Layout(version: nat, slots: Slots, crc: Crc): ChunkFiles {
    ChunkFiles(Some(ToBigEndian(version, 4) + PrimaryOffsets(slots)), Some(SecondaryBytes(slots, crc)),
               Some(ChunkBytes(slots)))
  }

  /** The stored blocks are well-formed and the offsets fit the widths of the indexes. */
  predicate WellFormed(slots: Slots) {
    && (forall i | 0 <= i < |slots| :: slots[i].Some? ==> ValidStored(slots[i].value))
    && ENTRY_SIZE * Filled(slots) < 0x1_0000_0000
    && |ChunkBytes(slots)| <= U64_MAX
  }

  lemma {:induction false} FilledGrows(slots: Slots, i: nat)
    requires i <= |slots|
    ensures Filled(slots[..i]) <= Filled(slots)
  {
    if i < |slots| {
      assert slots[..|slots| - 1][..i] == slots[..i];
      FilledGrows(slots[..|slots| - 1], i);
    } else {
      assert slots[..i] == slots;
    }
  }

  lemma {:induction false} PrimaryAt(slots: Slots, i: nat)
    requires i <= |slots|
    ensures |PrimaryOffsets(slots)| == 4 * (|slots| + 1)
    ensures PrimaryOffsets(slots)[4 * i..4 * i + 4] == ToBigEndian(ENTRY_SIZE * Filled(slots[..i]), 4)
  {
    hide ToBigEndian;
    if i == |slots| {
      assert slots[..i] == slots;
      if slots != [] {
        PrimaryAt(slots[..i - 1], 0);
      }
    } else {
      var front := slots[..|slots| - 1];
      PrimaryAt(front, i);
      assert front[..i] == slots[..i];
      assert PrimaryOffsets(slots)[4 * i..4 * i + 4] == PrimaryOffsets(front)[4 * i..4 * i + 4];
    }
  }

  /** The index as loaded: offset i is where the entries of the first i slots end. */
  lemma LoadedOffset(version: nat, slots: Slots, crc: Crc, i: nat)
    requires WellFormed(slots) && i <= |slots|
    ensures LoadPrimary(Layout(version, slots, crc).primary).Ok?
    ensures var offsets := LoadPrimary(Layout(version, slots, crc).primary).value.offsets;
            |offsets| == |slots| + 1 && offsets[i] == ENTRY_SIZE * Filled(slots[..i])
  {
    hide ToBigEndian, BigEndian, PrimaryOffsets, SecondaryBytes, ChunkBytes;
    PrimaryAt(slots, i);
    FilledGrows(slots, i);
    PowersOf256();
    BigEndianRoundTrip(ENTRY_SIZE * Filled(slots[..i]), 4);
    var file := ToBigEndian(version, 4) + PrimaryOffsets(slots);
    assert file[4 * i + 4..4 * i + 8] == PrimaryOffsets(slots)[4 * i..4 * i + 4];
  }

  lemma {:induction false} SecondaryAt(slots: Slots, crc: Crc, i: nat)
    requires i < |slots| && slots[i].Some?
    requires forall j | 0 <= j < |slots| :: slots[j].Some? ==> ValidStored(slots[j].value)
    ensures |SecondaryBytes(slots, crc)| == ENTRY_SIZE * Filled(slots)
    ensures var start := ENTRY_SIZE * Filled(slots[..i]);
            && start + ENTRY_SIZE <= ENTRY_SIZE * Filled(slots)
            && SecondaryBytes(slots, crc)[start..start + ENTRY_SIZE]
               == EntryBytes(|ChunkBytes(slots[..i])|, slots[i].value, crc)
  {
    hide EntryBytes, ChunkBytes;
    var n := |slots| - 1;
    var front := slots[..n];
    SecondaryLength(front, crc);
    if slots[n].Some? {
      EntryLength(|ChunkBytes(front)|, slots[n].value, crc);
    }
    if i < n {
      SecondaryAt(front, crc, i);
      assert front[..i] == slots[..i];
    }
  }

  lemma {:induction false} SecondaryLength(slots: Slots, crc: Crc)
    requires forall j | 0 <= j < |slots| :: slots[j].Some? ==> ValidStored(slots[j].value)
    ensures |SecondaryBytes(slots, crc)| == ENTRY_SIZE * Filled(slots)
  {
    hide EntryBytes, ChunkBytes;
    if slots != [] {
      var n := |slots| - 1;
      SecondaryLength(slots[..n], crc);
      if slots[n].Some? {
        EntryLength(|ChunkBytes(slots[..n])|, slots[n].value, crc);
      }
    }
  }

  lemma EntryLength(offset: nat, s: Stored, crc: Crc)
    requires ValidStored(s)
    ensures |EntryBytes(offset, s, crc)| == ENTRY_SIZE
  {
    hide ToBigEndian;
  }

  /** Parsing a written entry gives back the block's place and checksum. */
  lemma ParseWritten(offset: nat, s: Stored, crc: Crc)
    requires ValidStored(s) && offset <= U64_MAX
    ensures |EntryBytes(offset, s, crc)| == ENTRY_SIZE
    ensures ParseEntry(EntryBytes(offset, s, crc)).blockOffset == offset
    ensures ParseEntry(EntryBytes(offset, s, crc)).checksum == crc(s.block)
    ensures ParseEntry(EntryBytes(offset, s, crc)).headerHash == s.headerHash
  {
    hide ToBigEndian, BigEndian;
    var bytes := EntryBytes(offset, s, crc);
    PowersOf256();
    BigEndianRoundTrip(offset, 8);
    BigEndianRoundTrip(crc(s.block), 4);
    assert bytes[0..8] == ToBigEndian(offset, 8);
    assert bytes[12..16] == ToBigEndian(crc(s.block), 4);
    assert bytes[16..48] == s.headerHash;
  }

  /** The chunk file holds each block right after the blocks of earlier slots. */
  lemma {:induction false} ChunkAt(slots: Slots, i: nat)
    requires i < |slots| && slots[i].Some?
    ensures var start := |ChunkBytes(slots[..i])|;
            && start + |slots[i].value.block| == |ChunkBytes(slots[..i + 1])| <= |ChunkBytes(slots)|
            && ChunkBytes(slots)[start..start + |slots[i].value.block|] == slots[i].value.block
  {
    var n := |slots| - 1;
    assert slots[..i + 1][..i] == slots[..i];
    if i < n {
      ChunkAt(slots[..n], i);
      assert slots[..n][..i] == slots[..i] && slots[..n][..i + 1] == slots[..i + 1];
    } else {
      assert slots[..i + 1] == slots;
    }
  }

  /** The next filled slot after the first i, when there is one: no block lies between. */
  lemma {:induction false} NextFilled(slots: Slots, i: nat) returns (j: nat)
    requires i <= |slots|
    ensures i <= j <= |slots| && Filled(slots[..j]) == Filled(slots[..i])
            && ChunkBytes(slots[..j]) == ChunkBytes(slots[..i])
    ensures if j == |slots| then Filled(slots[..i]) == Filled(slots)
            else slots[j].Some? && Filled(slots[..i]) < Filled(slots)
    decreases |slots| - i
  {
    if i == |slots| {
      assert slots[..i] == slots;
      j := i;
    } else if slots[i].Some? {
      assert slots[..i + 1][..i] == slots[..i];
      FilledGrows(slots, i + 1);
      j := i;
    } else {
      assert slots[..i + 1][..i] == slots[..i];
      j := NextFilled(slots, i + 1);
    }
  }

  lemma NoWrap(a: nat, b: nat)
    requires a <= U64_MAX && b <= a
    ensures WrappingSub(a, b) == a - b
  {
  }

  /** The size found for a filled slot is its block's, whether from the next entry or from the end of the chunk file. */
  lemma SizeOfFilled(version: nat, slots: Slots, crc: Crc, i: nat)
    requires WellFormed(slots) && i < |slots| && slots[i].Some?
    ensures var files, start := Layout(version, slots, crc), ENTRY_SIZE * Filled(slots[..i]);
            && start + ENTRY_SIZE <= |files.secondary.value|
            && BlockSize(files.secondary.value, start, files.chunk) == Ok(|slots[i].value.block|)
  {
    hide EntryBytes, ParseEntry, ChunkBytes, SecondaryBytes, WrappingSub, PrimaryOffsets;
    var here, after := |ChunkBytes(slots[..i])|, |ChunkBytes(slots[..i + 1])|;
    SecondaryAt(slots, crc, i);
    ChunkAt(slots, i);
    ParseWritten(here, slots[i].value, crc);
    assert slots[..i + 1][..i] == slots[..i];
    var j := NextFilled(slots, i + 1);
    NoWrap(after, here);
    if j < |slots| {
      SecondaryAt(slots, crc, j);
      ChunkAt(slots, j);
      ParseWritten(after, slots[j].value, crc);
    } else {
      assert slots[..j] == slots;
    }
  }

  /**
   * For every chunk laid out this way and every slot: reading returns exactly the block of a filled slot, and fails
   * with "slot not found" exactly on an empty slot or one past the end of the index.
   */
  lemma ReadIsExact(version: nat, slots: Slots, crc: Crc, relative: nat)
    requires WellFormed(slots)
    ensures ReadFromChunk(Layout(version, slots, crc), relative, crc)
         == if relative < |slots| && slots[relative].Some? then Ok(slots[relative].value.block) else Err(SlotNotFound)
  {
    hide LoadPrimary, ParseEntry, SecondaryBytes, ChunkBytes, PrimaryOffsets, BlockSize;
    LoadedOffset(version, slots, crc, 0);
    if relative < |slots| {
      LoadedOffset(version, slots, crc, relative);
      LoadedOffset(version, slots, crc, relative + 1);
      assert slots[..relative + 1][..relative] == slots[..relative];
      if slots[relative].Some? {
        var s := slots[relative].value;
        SecondaryAt(slots, crc, relative);
        SizeOfFilled(version, slots, crc, relative);
        ChunkAt(slots, relative);
        ParseWritten(|ChunkBytes(slots[..relative])|, s, crc);
      }
    }
  }

  /** The same for a slot of the whole database: its chunk is the quotient, its place in the chunk the remainder. */
  lemma ReadFindsSlot(db: ImmutableDb, chunkNo: nat, relative: nat, version: nat, slots: Slots, crc: Crc)
    requires relative < db.chunkSize && WellFormed(slots)
    requires chunkNo in db.files && db.files[chunkNo] == Layout(version, slots, crc)
    ensures var slot := chunkNo * db.chunkSize + relative;
            ReadFromChunk(FilesOf(db, slot / db.chunkSize), slot % db.chunkSize, crc)
            == if relative < |slots| && slots[relative].Some? then Ok(slots[relative].value.block)
               else Err(SlotNotFound)
  {
    hide ReadFromChunk, Layout, WellFormed;
    ChunkOfSlot(chunkNo, relative, db.chunkSize);
    ReadIsExact(version, slots, crc, relative);
  }

  lemma ChunkOfSlot(chunkNo: nat, relative: nat, chunkSize: nat)
    requires relative < chunkSize
    ensures (chunkNo * chunkSize + relative) / chunkSize == chunkNo
    ensures (chunkNo * chunkSize + relative) % chunkSize == relative
  {
    DivisionIsUnique(chunkNo * chunkSize + relative, chunkSize, chunkNo, relative);
  }
}
