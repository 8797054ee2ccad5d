/** The hand-written Bech32 encoder: regrouping bytes into 5-bit symbols, checksum, character set. */
module Bech32 {
  import opened Arithmetic
  import opened Wrappers
  import opened Cbor
  import opened Bech32Checksum

  type symbol = n: nat | n < 32

  // ---- Numbers behind the groups -------------------------------------------------------------

  function Pow2(n: nat): (p: nat)
    ensures p > 0
  {
    if n == 0 then 1 else 2 * Pow2(n - 1)
  }

  lemma SmallPowers()
    ensures Pow2(0) == 1 && Pow2(1) == 2 && Pow2(2) == 4 && Pow2(3) == 8 && Pow2(4) == 16 && Pow2(5) == 32
    ensures Pow2(6) == 64 && Pow2(7) == 128 && Pow2(8) == 256 && Pow2(9) == 512 && Pow2(10) == 1024
    ensures Pow2(11) == 2048 && Pow2(12) == 4096
  {
    assert Pow2(3) == 2 * Pow2(2) && Pow2(5) == 2 * Pow2(4) && Pow2(7) == 2 * Pow2(6) && Pow2(9) == 2 * Pow2(8);
    assert Pow2(4) == 2 * Pow2(3) && Pow2(6) == 2 * Pow2(5) && Pow2(8) == 2 * Pow2(7) && Pow2(10) == 2 * Pow2(9);
    assert Pow2(11) == 2 * Pow2(10) && Pow2(12) == 2 * Pow2(11);
  }

  /** The number a symbol sequence spells in base 32. */
  function Base32(s: seq<symbol>): nat {
    if s == [] then 0 else Base32(s[..|s| - 1]) * 32 + s[|s| - 1]
  }

  function ToBase32(v: nat, width: nat): (s: seq<symbol>)
    ensures |s| == width
  {
    if width == 0 then [] else ToBase32(v / 32, width - 1) + [v % 32]
  }

  lemma {:induction false} ToBase32Inverts(s: seq<symbol>)
    ensures ToBase32(Base32(s), |s|) == s
  {
    if s != [] {
      var n := |s| - 1;
      ToBase32Inverts(s[..n]);
      var v := Base32(s[..n]);
      assert (v * 32 + s[n]) / 32 == v && (v * 32 + s[n]) % 32 == s[n];
      assert s == s[..n] + [s[n]];
    }
  }

  lemma {:induction false} ToBigEndianInverts(s: Bytes)
    ensures ToBigEndian(BigEndian(s), |s|) == s
  {
    if s != [] {
      var n := |s| - 1;
      ToBigEndianInverts(s[..n]);
      var v := BigEndian(s[..n]);
      assert (v * 256 + s[n]) / 256 == v && (v * 256 + s[n]) % 256 == s[n];
      assert s == s[..n] + [s[n]];
    }
  }

  /** Zero bits appended to fill the last symbol. */
  function Padding(bytes: nat): (pad: nat)
    ensures pad < 5 && (8 * bytes + pad) % 5 == 0
  {
    (5 - 8 * bytes % 5) % 5
  }

  /** The symbols of a byte string: its bits in groups of five, zero-padded at the end. */
  function ToSymbols(data: Bytes): (s: seq<symbol>)
    ensures |s| * 5 == 8 * |data| + Padding(|data|)
  {
    ToBase32(BigEndian(data) * Pow2(Padding(|data|)), (8 * |data| + Padding(|data|)) / 5)
  }

  // ---- The conversion loop -------------------------------------------------------------------

  const U32: nat := 0x1_0000_0000

  /** Reducing modulo a multiple of p * 256 first does not change the low bits. */
  lemma ShiftMod(acc: nat, p: nat, q: nat, b: byte)
    requires p > 0 && q > 0
    ensures p * 256 > 0 && q * (p * 256) > 0
    ensures (acc * 256 % (q * (p * 256)) + b) % (p * 256) == (acc % p) * 256 + b
  {
    var d := p * 256;
    var m := q * d;
    AtLeast(q, d);
    var k, r := acc * 256 / m, acc * 256 % m;
    var x, y := acc / p, acc % p;
    assert acc * 256 == k * m + r && acc == x * p + y;
    assert k * (q * d) == (k * q) * d;
    assert (x * p) * 256 == x * d;
    Distribute(x - k * q, k * q, d);
    assert r + b == (x - k * q) * d + (y * 256 + b);
    DivisionIsUnique(r + b, d, x - k * q, y * 256 + b);
  }

  /** Shifting a byte into the accumulator keeps the low bits exact, whatever falls off the top. */
  lemma ShiftIn(acc: nat, bits: nat, b: byte)
    requires bits < 5
    ensures (acc * 256 % U32 + b) % Pow2(bits + 8) == (acc % Pow2(bits)) * 256 + b
    ensures Pow2(bits + 8) == Pow2(bits) * 256
  {
    SmallPowers();
    hide Pow2;
    ShiftMod(acc, Pow2(bits), U32 / (Pow2(bits) * 256), b);
  }

  /** Taking the top five of the pending bits leaves the rest. */
  lemma TakeFive(acc: nat, bits: nat)
    requires bits < 8
    ensures acc % Pow2(bits + 5) == (acc / Pow2(bits) % 32) * Pow2(bits) + acc % Pow2(bits)
    ensures Pow2(bits + 5) == 32 * Pow2(bits)
  {
    SmallPowers();
    hide Pow2;
    SplitMod(acc, Pow2(bits), 32);
  }

  lemma SplitMod(a: nat, p: nat, q: nat)
    requires p > 0 && q > 0
    ensures p * q > 0 && a % (p * q) == (a / p % q) * p + a % p
  {
    var h, r := a / p, a % p;
    var x, y := h / q, h % q;
    Recombine(h, x, y, p, q);
    Remains(y, r, p, q);
    DivisionIsUnique(a, p * q, x, y * p + r);
  }

  lemma Recombine(h: nat, x: nat, y: nat, p: nat, q: nat)
    requires h == x * q + y
    ensures h * p == x * (p * q) + y * p
  {
    Distribute(x * q, y, p);
    Regroup(x, q, p);
    Swap(p, q);
  }

  lemma Swap(p: nat, q: nat)
    ensures p * q == q * p
  {
  }

  lemma Remains(y: nat, r: nat, p: nat, q: nat)
    requires y < q && r < p
    ensures y * p + r < p * q && p * q > 0
  {
    Distribute(y, q - y, p);
    AtLeast(q - y, p);
    Swap(p, q);
  }

  lemma MaskMod(acc: nat, p: nat, q: nat, d: nat, n: nat)
    requires p > 0 && q > 0 && d > 0 && n > 0 && d == p * q
    ensures n * d > 0
    ensures (acc * q % (n * d)) % d == (acc % p) * q
  {
    var m := n * d;
    AtLeast(n, d);
    var k, r := acc * q / m, acc * q % m;
    var x, y := acc / p, acc % p;
    assert acc * q == k * m + r;
    assert k * (n * d) == (k * n) * d;
    Distribute(x * p, y, q);
    assert acc * q == (x * p) * q + y * q;
    assert (x * p) * q == x * d;
    Distribute(x - k * n, k * n, d);
    AtLeast(p - y, q);
    Distribute(p - y, y, q);
    DivisionIsUnique(r, d, x - k * n, y * q);
  }

  /** The last, partial group: the shift may lose high bits of the accumulator, the mask keeps the low. */
  lemma LastGroup(acc: nat, bits: nat)
    requires 0 < bits < 5
    ensures (acc * Pow2(5 - bits) % U32) % 32 == (acc % Pow2(bits)) * Pow2(5 - bits)
  {
    SmallPowers();
    hide Pow2;
    MaskMod(acc, Pow2(bits), Pow2(5 - bits), 32, 0x800_0000);
  }

  /** `(acc << 8) | b` in u32 */
  function ShiftByte(acc: nat, b: byte): (r: nat)
    ensures r < U32
  {
    acc * 256 % U32 + b
  }

  /** `(acc >> bits) & 0x1f` */
  function TopFive(acc: nat, bits: nat): symbol {
    acc / Pow2(bits) % 32
  }

  /** `(acc << (5 - bits)) & 0x1f` in u32 */
  function LastFive(acc: nat, bits: nat): symbol
    requires bits <= 5
  {
    (acc * Pow2(5 - bits) % U32) % 32
  }

  /** What the loop has collected: whole symbols and `bits` pending bits at the bottom of `acc`. */
  ghost predicate Collected(value: nat, symbols: seq<symbol>, acc: nat, bits: nat) {
    value == Base32(symbols) * Pow2(bits) + acc % Pow2(bits)
  }

  lemma Base32Snoc(symbols: seq<symbol>, y: symbol)
    ensures Base32(symbols + [y]) == Base32(symbols) * 32 + y
  {
    assert (symbols + [y])[..|symbols|] == symbols;
  }

  lemma CollectByte(value: nat, symbols: seq<symbol>, acc: nat, bits: nat, b: byte)
    requires bits < 5 && Collected(value, symbols, acc, bits)
    ensures Collected(value * 256 + b, symbols, ShiftByte(acc, b), bits + 8)
  {
    hide Pow2, Base32;
    ShiftIn(acc, bits, b);
    var s, p, r := Base32(symbols), Pow2(bits), acc % Pow2(bits);
    Distribute(s * p, r, 256);
    assert (s * p) * 256 == s * (p * 256);
  }

  lemma CollectSymbol(value: nat, symbols: seq<symbol>, acc: nat, bits: nat)
    requires bits < 8 && Collected(value, symbols, acc, bits + 5)
    ensures Collected(value, symbols + [TopFive(acc, bits)], acc, bits)
  {
    hide Pow2, Base32;
    TakeFive(acc, bits);
    var s, p, y := Base32(symbols), Pow2(bits), acc / Pow2(bits) % 32;
    Base32Snoc(symbols, y);
    Distribute(s * 32, y, p);
    assert s * (32 * p) == (s * 32) * p;
  }

  lemma CollectLast(value: nat, symbols: seq<symbol>, acc: nat, bits: nat)
    requires 0 < bits < 5 && Collected(value, symbols, acc, bits)
    ensures Base32(symbols + [LastFive(acc, bits)]) == value * Pow2(5 - bits)
  {
    LastGroup(acc, bits);
    SmallPowers();
    hide Pow2, Base32;
    var s, p, q, r := Base32(symbols), Pow2(bits), Pow2(5 - bits), acc % Pow2(bits);
    assert p * q == 32;
    var y := (acc * q % U32) % 32;
    Base32Snoc(symbols, y);
    Distribute(s * p, r, q);
    Regroup(s, p, q);
  }

  /** Regroup bytes into symbols. `acc` is never masked: it sheds its high bits in u32. */
  method ConvertBits(data: Bytes) returns (data5: seq<symbol>)
    ensures data5 == ToSymbols(data)
  {
    hide Collected, ShiftByte, TopFive, LastFive, ToSymbols;
    data5 := [];
    var acc: nat, bits: nat := 0, 0;
    NothingCollected();
    for i := 0 to |data|
      invariant bits < 5 && acc < U32 && 8 * i == 5 * |data5| + bits
      invariant Collected(BigEndian(data[..i]), data5, acc, bits)
    {
      CollectByte(BigEndian(data[..i]), data5, acc, bits, data[i]);
      assert data[..i + 1][..i] == data[..i];
      acc := ShiftByte(acc, data[i]);
      bits := bits + 8;
      while bits >= 5
        invariant bits < 13 && 8 * (i + 1) == 5 * |data5| + bits
        invariant Collected(BigEndian(data[..i + 1]), data5, acc, bits)
      {
        bits := bits - 5;
        CollectSymbol(BigEndian(data[..i + 1]), data5, acc, bits);
        data5 := data5 + [TopFive(acc, bits)];
      }
    }
    assert data[..|data|] == data;
    ghost var whole := data5;
    if bits > 0 {
      CollectLast(BigEndian(data), data5, acc, bits);
      data5 := data5 + [LastFive(acc, bits)];
    }
    AllCollected(data, whole, acc, bits, data5);
  }

  lemma NothingCollected()
    ensures BigEndian([]) == 0 && Collected(0, [], 0, 0)
  {
  }

  lemma PaddingIs(bytes: nat, symbols: nat, bits: nat)
    requires bits < 5 && 8 * bytes == 5 * symbols + bits
    ensures Padding(bytes) == if bits == 0 then 0 else 5 - bits
    ensures (8 * bytes + Padding(bytes)) / 5 == if bits == 0 then symbols else symbols + 1
  {
  }

  lemma WholeValue(value: nat, symbols: seq<symbol>, acc: nat)
    requires Collected(value, symbols, acc, 0)
    ensures Base32(symbols) == value * Pow2(0)
  {
  }

  lemma AllCollected(data: Bytes, whole: seq<symbol>, acc: nat, bits: nat, data5: seq<symbol>)
    requires bits < 5 && 8 * |data| == 5 * |whole| + bits && Collected(BigEndian(data), whole, acc, bits)
    requires if bits == 0 then data5 == whole
             else |data5| == |whole| + 1 && Base32(data5) == BigEndian(data) * Pow2(5 - bits)
    ensures data5 == ToSymbols(data)
  {
    hide Base32, BigEndian, Pow2;
    var pad := Padding(|data|);
    PaddingIs(|data|, |whole|, bits);
    assert Base32(data5) == BigEndian(data) * Pow2(pad) by {
      if bits == 0 { WholeValue(BigEndian(data), whole, acc); }
    }
    ToBase32Inverts(data5);
  }

  // ---- Regrouping back -----------------------------------------------------------------------

  /** BIP-173's conversion back to bytes: fewer than five left-over bits, all of them zero. */
  function FromSymbols(s: seq<symbol>): Option<Bytes> {
    var pad := 5 * |s| % 8;
    if pad >= 5 || Base32(s) % Pow2(pad) != 0 then None
    else Some(ToBigEndian(Base32(s) / Pow2(pad), 5 * |s| / 8))
  }

  lemma {:induction false} ToBase32Value(v: nat, width: nat)
    requires v < Pow2(5 * width)
    ensures Base32(ToBase32(v, width)) == v
  {
    if width > 0 {
      PowFive(width);
      ToBase32Value(v / 32, width - 1);
      assert ToBase32(v, width)[..width - 1] == ToBase32(v / 32, width - 1);
    }
  }

  lemma PowFive(width: nat)
    requires width > 0
    ensures Pow2(5 * width) == 32 * Pow2(5 * (width - 1))
  {
    hide Pow2;
    PowAdd(5 * (width - 1), 5);
    SmallPowers();
    assert 5 * width == 5 * (width - 1) + 5;
  }

  lemma {:induction false} PowAdd(a: nat, b: nat)
    ensures Pow2(a + b) == Pow2(a) * Pow2(b)
  {
    if b > 0 {
      PowAdd(a, b - 1);
      assert Pow2(a + b) == 2 * Pow2(a + b - 1) && Pow2(b) == 2 * Pow2(b - 1);
      Double(Pow2(a), Pow2(b - 1));
    }
  }

  lemma Double(x: nat, y: nat)
    ensures x * (2 * y) == 2 * (x * y)
  {
  }

  lemma {:induction false} ValueFits(data: Bytes)
    ensures BigEndian(data) < Pow2(8 * |data|)
  {
    if data != [] {
      var n := |data| - 1;
      ValueFits(data[..n]);
      PowAdd(8 * n, 8);
      SmallPowers();
    }
  }

  /** Regrouping and back returns the bytes. */
  lemma FromSymbolsInverts(data: Bytes)
    ensures FromSymbols(ToSymbols(data)) == Some(data)
  {
    hide Pow2, BigEndian, ToBigEndian, Base32, ToBase32;
    var pad, v := Padding(|data|), BigEndian(data);
    var width := (8 * |data| + pad) / 5;
    assert 5 * width == 8 * |data| + pad;
    ValueFits(data);
    PowAdd(8 * |data|, pad);
    assert v * Pow2(pad) < Pow2(8 * |data|) * Pow2(pad) by {
      Distribute(Pow2(8 * |data|) - v, v, Pow2(pad));
      AtLeast(Pow2(8 * |data|) - v, Pow2(pad));
    }
    ToBase32Value(v * Pow2(pad), width);
    DivisionIsUnique(v * Pow2(pad), Pow2(pad), v, 0);
    assert 5 * width % 8 == pad && 5 * width / 8 == |data|;
    ToBigEndianInverts(data);
  }

  // ---- The string ----------------------------------------------------------------------------

  const CHARSET := "qpzry9x8gf2tvdw0s3jn54khce6mua7l"

  type Ascii = s: string | forall i | 0 <= i < |s| :: s[i] as int < 128 witness ""

  function Widen(s: seq<symbol>): (r: seq<bv32>)
    ensures |r| == |s|
  {
    seq(|s|, i requires 0 <= i < |s| => s[i] as bv32)
  }

  /** High bits, zero, low bits of the human-readable part. */
  function Expand(hrp: Ascii): seq<bv32> {
    seq(|hrp|, i requires 0 <= i < |hrp| => (hrp[i] as int / 32) as bv32)
    + [0]
    + seq(|hrp|, i requires 0 <= i < |hrp| => (hrp[i] as int % 32) as bv32)
  }

  function Narrow(s: seq<bv32>): (r: seq<symbol>)
    ensures |r| == |s|
  {
    seq(|s|, i requires 0 <= i < |s| => (s[i] & 31) as nat)
  }

  function Spell(s: seq<symbol>): (r: string)
    ensures |r| == |s|
  {
    seq(|s|, i requires 0 <= i < |s| => CHARSET[s[i]])
  }

  function ChecksumSymbols(hrp: Ascii, data5: seq<symbol>): (r: seq<symbol>)
    ensures |r| == 6
  {
    Narrow(Symbols(Checksum(Expand(hrp) + Widen(data5))))
  }

  function Encode(hrp: Ascii, data: Bytes): string {
    hrp + "1" + Spell(ToSymbols(data) + ChecksumSymbols(hrp, ToSymbols(data)))
  }

  lemma SpellSnoc(s: seq<symbol>, i: nat)
    requires i < |s|
    ensures Spell(s)[..i + 1] == Spell(s)[..i] + [CHARSET[s[i]]]
  {
  }

  /** `bech32_encode` */
  method Bech32Encode(hrp: Ascii, data: Bytes) returns (result: string)
    ensures result == Encode(hrp, data)
  {
    hide Run, Symbols, ToSymbols, Expand, Widen, Narrow, Xor, Spell;
    var data5 := ConvertBits(data);
    var values := Expand(hrp) + Widen(data5) + ZEROS;
    var chk := Polymod(values);
    var checksum := Narrow(Symbols(Xor(chk, 1)));
    result := hrp + "1";
    var chained := data5 + checksum;
    for i := 0 to |chained|
      invariant result == hrp + "1" + Spell(chained)[..i]
    {
      SpellSnoc(chained, i);
      result := result + [CHARSET[chained[i]]];
    }
    assert Spell(chained)[..|chained|] == Spell(chained);
  }

  // ---- A reader for the whole string ---------------------------------------------------------

  predicate InCharset(c: char) {
    exists i: nat :: i < 32 && CHARSET[i] == c
  }

  function LastOne(s: string): (k: nat)
    ensures k <= |s|
    ensures k < |s| ==> s[k] == '1' && '1' !in s[k + 1..]
  {
    if s == [] then 0
    else if s[|s| - 1] == '1' then |s| - 1
    else
      var k := LastOne(s[..|s| - 1]);
      if k == |s| - 1 then |s| else
        assert forall i | k + 1 <= i < |s| :: s[i] != '1' by {
          assert forall i | k + 1 <= i < |s| - 1 :: s[i] == s[..|s| - 1][i] && s[i] in s[..|s| - 1][k + 1..];
        }
        k
  }

  ghost function ReadSymbol(c: char): Option<symbol> {
    if InCharset(c) then
      var i: nat :| i < 32 && CHARSET[i] == c;
      Some(i)
    else None
  }

  ghost function ReadSymbols(s: string): Option<seq<symbol>> {
    if s == [] then Some([]) else
      match ReadSymbol(s[0])
      case None => None
      case Some(x) =>
        match ReadSymbols(s[1..])
        case None => None
        case Some(xs) => Some([x] + xs)
  }

  predicate IsAscii(s: string) {
    forall i | 0 <= i < |s| :: s[i] as int < 128
  }

  /** Decoding as BIP-173 prescribes it: split at the last '1', read symbols, verify that the polymod
      over expanded prefix, data and checksum is 1, drop the checksum, regroup. */
  ghost function Decode(s: string): Option<(Ascii, Bytes)> {
    var k := LastOne(s);
    if k == |s| || !IsAscii(s[..k]) then None else
      match ReadSymbols(s[k + 1..])
      case None => None
      case Some(symbols) =>
        if |symbols| < 6 || Run(1, Expand(s[..k]) + Widen(symbols)) != 1 then None else
          match FromSymbols(symbols[..|symbols| - 6])
          case None => None
          case Some(data) => Some((s[..k], data))
  }

  lemma CharsetDistinct()
    ensures forall i: nat, j: nat | i < j < 32 :: CHARSET[i] != CHARSET[j]
  {
  }

  lemma CharsetHasNoOne()
    ensures '1' !in CHARSET
  {
  }

  lemma ReadSpelled(x: symbol)
    ensures ReadSymbol(CHARSET[x]) == Some(x)
  {
    CharsetDistinct();
  }

  lemma {:induction false} ReadSymbolsInverts(s: seq<symbol>)
    ensures ReadSymbols(Spell(s)) == Some(s)
  {
    if s != [] {
      ReadSpelled(s[0]);
      ReadSymbolsInverts(s[1..]);
      assert Spell(s)[1..] == Spell(s[1..]);
      assert [s[0]] + s[1..] == s;
    }
  }

  lemma SplitsAtSeparator(hrp: string, tail: string)
    requires '1' !in tail
    ensures var s := hrp + "1" + tail; LastOne(s) == |hrp| && s[..|hrp|] == hrp && s[|hrp| + 1..] == tail
    decreases |tail|
  {
    var s := hrp + "1" + tail;
    if tail != [] {
      var n := |tail| - 1;
      SplitsAtSeparator(hrp, tail[..n]);
      assert s[..|s| - 1] == hrp + "1" + tail[..n];
      assert tail[n] in tail;
    }
  }

  /** The checksum symbols survive the trip through bytes and characters. */
  lemma NarrowWidens(chk: bv32)
    ensures Widen(Narrow(Symbols(chk))) == Symbols(chk)
  {
    hide Symbols;
    var s := Symbols(chk);
    forall i | 0 <= i < 6 ensures Widen(Narrow(s))[i] == s[i] {
      Masked(chk, i);
      ThroughNat(s[i] & 31);
    }
  }

  lemma ThroughNat(x: bv32)
    ensures x as nat as bv32 == x
  {
  }

  lemma Masked(chk: bv32, i: nat)
    requires i < 6
    ensures Symbols(chk)[i] & 31 == Symbols(chk)[i]
  {
  }

  lemma SpellHasNoSeparator(s: seq<symbol>)
    ensures '1' !in Spell(s)
  {
    CharsetHasNoOne();
  }

  /** Every encoded string is valid Bech32 and decodes to the prefix and bytes it was made from. */
  lemma DecodeInvertsEncode(hrp: Ascii, data: Bytes)
    ensures Decode(Encode(hrp, data)) == Some((hrp, data))
  {
    hide Run, ChecksumSymbols, Expand, Widen, ToSymbols, FromSymbols, Spell, ReadSymbols, LastOne;
    var data5, checksum := ToSymbols(data), ChecksumSymbols(hrp, ToSymbols(data));
    var all := data5 + checksum;
    SpellHasNoSeparator(all);
    SplitsAtSeparator(hrp, Spell(all));
    ReadSymbolsInverts(all);
    SymbolsCheck(hrp, data5);
    assert all[..|all| - 6] == data5;
    FromSymbolsInverts(data);
  }

  /** Data symbols followed by their checksum symbols pass the check. */
  lemma SymbolsCheck(hrp: Ascii, data5: seq<symbol>)
    ensures Run(1, Expand(hrp) + Widen(data5 + ChecksumSymbols(hrp, data5))) == 1
  {
    hide Run, Checksum, Symbols, Expand, Narrow;
    var checksum, values := ChecksumSymbols(hrp, data5), Expand(hrp) + Widen(data5);
    NarrowWidens(Checksum(values));
    assert Widen(data5 + checksum) == Widen(data5) + Widen(checksum);
    assert Expand(hrp) + Widen(data5 + checksum) == values + Symbols(Checksum(values));
    ChecksumChecks(values);
  }
}
