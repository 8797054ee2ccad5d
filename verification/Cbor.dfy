/** CBOR (RFC 8949, section 3): heads, whole items of definite and indefinite length, and the decoder and encoder the
    wallet code drives. */
module Cbor {
  import opened Wrappers

  type byte = n: nat | n < 256

  type Bytes = seq<byte>

  const UNSIGNED: nat := 0
  const BYTES: nat := 2
  const TEXT: nat := 3
  const ARRAY: nat := 4
  const MAP: nat := 5
  const TAG: nat := 6
  const SIMPLE: nat := 7

  const FALSE: byte := 0xf4
  const TRUE: byte := 0xf5
  const NULL: byte := 0xf6
  const BREAK: byte := 0xff

  // ---- Heads ---------------------------------------------------------------------------------

  function BigEndian(s: Bytes): nat {
    if s == [] then 0 else BigEndian(s[..|s| - 1]) * 256 + s[|s| - 1]
  }

  function ToBigEndian(n: nat, width: nat): (s: Bytes)
    ensures |s| == width
  {
    if width == 0 then [] else ToBigEndian(n / 256, width - 1) + [n % 256]
  }

  function Pow256(w: nat): (p: nat)
    ensures p > 0
  {
    if w == 0 then 1 else 256 * Pow256(w - 1)
  }

  lemma {:induction false} BigEndianRoundTrip(n: nat, width: nat)
    requires n < Pow256(width)
    ensures BigEndian(ToBigEndian(n, width)) == n
  {
    if width > 0 {
      var s := ToBigEndian(n, width);
      assert s[..width - 1] == ToBigEndian(n / 256, width - 1);
      assert Pow256(width) == 256 * Pow256(width - 1);
      BigEndianRoundTrip(n / 256, width - 1);
    }
  }

  /** Major type, argument, and number of bytes of the head. */
  datatype Head = Head(major: nat, arg: nat, size: nat)

  /** Extra bytes of a head by its additional information; None for reserved and indefinite. */
  function Width(info: nat): Option<nat> {
    if info < 24 then Some(0)
    else if info == 24 then Some(1)
    else if info == 25 then Some(2)
    else if info == 26 then Some(4)
    else if info == 27 then Some(8)
    else None
  }

  function ReadHead(s: Bytes): (h: Option<Head>)
    ensures h.Some? ==> 0 < h.value.size <= |s| && h.value.major < 8
  {
    if s == [] then None else
      var info := s[0] % 32;
      match Width(info)
      case None => None
      case Some(w) =>
        if |s| < 1 + w then None
        else Some(Head(s[0] / 32, if w == 0 then info else BigEndian(s[1..1 + w]), 1 + w))
  }

  /** Shortest form, as the encoder writes it. */
  function WriteHead(major: nat, arg: nat): (s: Bytes)
    requires major < 8 && arg <= U64_MAX
    ensures s != []
  {
    if arg < 24 then [major * 32 + arg]
    else if arg < 0x100 then [major * 32 + 24] + ToBigEndian(arg, 1)
    else if arg < 0x1_0000 then [major * 32 + 25] + ToBigEndian(arg, 2)
    else if arg < 0x1_0000_0000 then [major * 32 + 26] + ToBigEndian(arg, 4)
    else [major * 32 + 27] + ToBigEndian(arg, 8)
  }

  lemma PowersOf256()
    ensures Pow256(1) == 0x100 && Pow256(2) == 0x1_0000 && Pow256(4) == 0x1_0000_0000 && Pow256(8) == U64_MAX + 1
  {
    assert Pow256(1) == 256 && Pow256(2) == 256 * 256;
    assert Pow256(3) == 256 * Pow256(2) && Pow256(4) == 256 * Pow256(3);
    assert Pow256(5) == 256 * Pow256(4) && Pow256(6) == 256 * Pow256(5);
    assert Pow256(7) == 256 * Pow256(6) && Pow256(8) == 256 * Pow256(7);
  }

  lemma InitialByte(major: nat, info: nat)
    requires major < 8 && info < 32
    ensures (major * 32 + info) % 32 == info && (major * 32 + info) / 32 == major && major * 32 + info < 256
  {
  }

  lemma WideHead(major: nat, info: nat, w: nat, arg: nat, rest: Bytes)
    requires major < 8 && info < 32 && Width(info) == Some(w) && w > 0 && arg < Pow256(w)
    ensures var s := [major * 32 + info] + ToBigEndian(arg, w);
            ReadHead(s + rest) == Some(Head(major, arg, |s|))
  {
    hide ToBigEndian, BigEndian, Pow256;
    InitialByte(major, info);
    var s := [major * 32 + info] + ToBigEndian(arg, w) + rest;
    assert s[1..1 + w] == ToBigEndian(arg, w);
    BigEndianRoundTrip(arg, w);
  }

  /** Reading back a written head, whatever follows. */
  lemma HeadRoundTrip(major: nat, arg: nat, rest: Bytes)
    requires major < 8 && arg <= U64_MAX
    ensures ReadHead(WriteHead(major, arg) + rest) == Some(Head(major, arg, |WriteHead(major, arg)|))
  {
    PowersOf256();
    hide Pow256, ToBigEndian, BigEndian;
    if arg < 24 {
      var b: byte := major * 32 + arg;
      assert ([b] + rest)[0] == b && b % 32 == arg && b / 32 == major;
    } else if arg < 0x100 {
      WideHead(major, 24, 1, arg, rest);
    } else if arg < 0x1_0000 {
      WideHead(major, 25, 2, arg, rest);
    } else if arg < 0x1_0000_0000 {
      WideHead(major, 26, 4, arg, rest);
    } else {
      WideHead(major, 27, 8, arg, rest);
    }
  }

  /** The written head is the shortest of all that say the same. */
  lemma HeadIsShortest(s: Bytes)
    requires ReadHead(s).Some?
    ensures ReadHead(s).value.arg <= U64_MAX
    ensures |WriteHead(ReadHead(s).value.major, ReadHead(s).value.arg)| <= ReadHead(s).value.size
  {
    ArgumentFits(s);
    var w := Width(s[0] % 32).value;
    PowersOf256();
    if w > 0 {
      BigEndianBound(s[1..1 + w]);
    }
  }

  /** The first byte of a number is the most significant one. */
  lemma {:induction false} MostSignificantFirst(b: byte, s: Bytes)
    ensures BigEndian([b] + s) == b * Pow256(|s|) + BigEndian(s)
  {
    if s == [] {
      assert [b][..0] == [] && [b] + s == [b];
    } else {
      var n := |s| - 1;
      MostSignificantFirst(b, s[..n]);
      assert ([b] + s)[..n + 1] == [b] + s[..n];
      Shifted(b, Pow256(n), BigEndian(s[..n]));
    }
  }

  lemma Shifted(b: nat, p: nat, v: nat)
    ensures (b * p + v) * 256 == b * (256 * p) + v * 256
  {
  }

  /** Examples of RFC 8949, appendix A: numbers of each width, and the heads of the other types. */
  lemma StandardHeads()
    ensures WriteHead(UNSIGNED, 23) == [0x17] && WriteHead(UNSIGNED, 24) == [0x18, 0x18]
    ensures WriteHead(UNSIGNED, 100) == [0x18, 0x64] && WriteHead(UNSIGNED, 1000) == [0x19, 0x03, 0xe8]
    ensures WriteHead(UNSIGNED, 1_000_000) == [0x1a, 0x00, 0x0f, 0x42, 0x40]
    ensures WriteHead(UNSIGNED, 1_000_000_000_000) == [0x1b, 0x00, 0x00, 0x00, 0xe8, 0xd4, 0xa5, 0x10, 0x00]
    ensures WriteHead(BYTES, 4) == [0x44] && WriteHead(TEXT, 1) == [0x61]
    ensures WriteHead(ARRAY, 3) == [0x83] && WriteHead(MAP, 2) == [0xa2] && WriteHead(TAG, 1) == [0xc1]
    ensures ReadBool([0xf4]) == Some(false) && ReadBool([0xf5]) == Some(true) && NULL == 0xf6
  {
    hide ToBigEndian, ReadHead;
    Digits1(24);
    Digits1(100);
    Digits2(0x03, 0xe8);
    Digits4(0x00, 0x0f, 0x42, 0x40);
    Digits4(0x00, 0x00, 0x00, 0xe8);
    Digits4(0xd4, 0xa5, 0x10, 0x00);
    Digits8([0x00, 0x00, 0x00, 0xe8], [0xd4, 0xa5, 0x10, 0x00], 0xe8, 0xd4a51000);
  }

  lemma Digits1(a: byte)
    ensures ToBigEndian(a, 1) == [a]
  {
    DigitAppends(0, a, 0);
  }

  lemma Digits2(a: byte, b: byte)
    ensures ToBigEndian(a * 0x100 + b, 2) == [a, b]
  {
    hide ToBigEndian;
    Digits1(a);
    DigitAppends(a, b, 1);
  }

  lemma Digits4(a: byte, b: byte, c: byte, d: byte)
    ensures ToBigEndian(((a * 0x100 + b) * 0x100 + c) * 0x100 + d, 4) == [a, b, c, d]
  {
    hide ToBigEndian;
    Digits2(a, b);
    DigitAppends(a * 0x100 + b, c, 2);
    DigitAppends((a * 0x100 + b) * 0x100 + c, d, 3);
  }

  lemma DigitAppends(n: nat, b: byte, w: nat)
    ensures ToBigEndian(n * 0x100 + b, w + 1) == ToBigEndian(n, w) + [b]
  {
  }

  lemma Digits8(high: Bytes, low: Bytes, h: nat, l: nat)
    requires |high| == 4 && |low| == 4 && ToBigEndian(h, 4) == high && ToBigEndian(l, 4) == low && l < 0x1_0000_0000
    ensures ToBigEndian(h * 0x1_0000_0000 + l, 8) == high + low
  {
    AppendDigits(h, l, 4, 4);
    PowersOf256();
  }

  lemma {:induction false} AppendDigits(h: nat, l: nat, high: nat, low: nat)
    requires l < Pow256(low)
    ensures ToBigEndian(h * Pow256(low) + l, high + low) == ToBigEndian(h, high) + ToBigEndian(l, low)
    decreases low
  {
    if low == 0 {
      assert h * 1 + l == h;
    } else {
      LastDigit(h, Pow256(low - 1), l);
      AppendDigits(h, l / 256, high, low - 1);
    }
  }

  lemma LastDigit(h: nat, p: nat, l: nat)
    ensures h * (256 * p) + l >= 0
    ensures (h * (256 * p) + l) / 256 == h * p + l / 256 && (h * (256 * p) + l) % 256 == l % 256
  {
    Shifted(h, p, 0);
    LastOf(h * p, l);
  }

  lemma LastOf(x: nat, l: nat)
    ensures (x * 256 + l) / 256 == x + l / 256 && (x * 256 + l) % 256 == l % 256
  {
  }

  // ---- Whole items ---------------------------------------------------------------------------

  /** Items that follow a head of this kind before the item it opens is complete. */
  function Children(h: Head): nat {
    if h.major == ARRAY then h.arg
    else if h.major == MAP then 2 * h.arg
    else if h.major == TAG then 1
    else 0
  }

  /** Bytes of content that follow a string head. */
  function Payload(h: Head): nat {
    if h.major == BYTES || h.major == TEXT then h.arg else 0
  }

  /** The head of an indefinite-length item of a major type. */
  predicate Opens(s: Bytes, major: nat) {
    s != [] && s[0] == major * 32 + 31
  }

  /** Length of the first item of a byte string. */
  function Skip(s: Bytes): (n: Option<nat>)
    ensures n.Some? ==> 0 < n.value <= |s|
    decreases |s|, 0
  {
    match ReadHead(s)
    case None =>
      if Opens(s, ARRAY) || Opens(s, MAP) then Then(1, SkipOpen(s[1..]))
      else if Opens(s, BYTES) || Opens(s, TEXT) then Then(1, SkipChunks(s[1..], s[0] / 32))
      else None
    case Some(h) =>
      if |s| < h.size + Payload(h) then None else
        var start := h.size + Payload(h);
        match SkipMany(s[start..], Children(h))
        case None => None
        case Some(n) => Some(start + n)
  }

  /** Length of the first `count` items. */
  function SkipMany(s: Bytes, count: nat): (n: Option<nat>)
    ensures n.Some? ==> n.value <= |s|
    decreases |s|, 1, count
  {
    if count == 0 then Some(0) else
      match Skip(s)
      case None => None
      case Some(k) =>
        match SkipMany(s[k..], count - 1)
        case None => None
        case Some(n) => Some(k + n)
  }

  /** Length of the items of an indefinite-length array or map, the closing break included. */
  function SkipOpen(s: Bytes): (n: Option<nat>)
    ensures n.Some? ==> n.value <= |s|
    decreases |s|, 1
  {
    if s == [] then None
    else if s[0] == BREAK then Some(1)
    else
      match Skip(s)
      case None => None
      case Some(k) => Then(k, SkipOpen(s[k..]))
  }

  /** Length of the chunks of an indefinite-length string, the closing break included: definite strings of its type. */
  function SkipChunks(s: Bytes, major: nat): (n: Option<nat>)
    ensures n.Some? ==> n.value <= |s|
    decreases |s|, 0
  {
    if s == [] then None
    else if s[0] == BREAK then Some(1)
    else
      match ReadHead(s)
      case None => None
      case Some(h) =>
        if h.major != major || |s| < h.size + h.arg then None
        else Then(h.size + h.arg, SkipChunks(s[h.size + h.arg..], major))
  }

  function Then(before: nat, after: Option<nat>): Option<nat> {
    match after
    case None => None
    case Some(n) => Some(before + n)
  }

  /** A byte string that is exactly one item. */
  predicate IsItem(x: Bytes) {
    Skip(x) == Some(|x|)
  }

  lemma HeadIsLocal(s: Bytes, t: Bytes)
    requires ReadHead(s).Some?
    ensures ReadHead(s + t) == ReadHead(s)
  {
    var w := Width(s[0] % 32).value;
    assert (s + t)[0] == s[0];
    assert (s + t)[1..1 + w] == s[1..1 + w];
  }

  lemma OpensIsLocal(s: Bytes, t: Bytes)
    requires s != [] && ReadHead(s) == None && s[0] % 32 == 31
    ensures ReadHead(s + t) == None && forall major :: Opens(s + t, major) <==> Opens(s, major)
  {
    assert (s + t)[0] == s[0];
  }

  function OpenMajor(s: Bytes): nat {
    if Opens(s, ARRAY) then ARRAY else if Opens(s, MAP) then MAP else if Opens(s, BYTES) then BYTES else TEXT
  }

  lemma OpenHeads(s: Bytes, major: nat)
    requires Opens(s, major)
    ensures ReadHead(s) == None && s[0] % 32 == 31 && s[0] / 32 == major
  {
  }

  /** Skipping looks no further than the item it skips. */
  lemma {:induction false} SkipIsLocal(s: Bytes, t: Bytes)
    requires Skip(s).Some?
    ensures Skip(s + t) == Skip(s)
    decreases |s|, 0
  {
    hide SkipMany, SkipOpen, SkipChunks, ReadHead, Opens;
    if ReadHead(s).Some? {
      HeadIsLocal(s, t);
      var h := ReadHead(s).value;
      var start := h.size + Payload(h);
      SkipManyIsLocal(s[start..], Children(h), t);
      assert (s + t)[start..] == s[start..] + t;
    } else {
      var strings := !Opens(s, ARRAY) && !Opens(s, MAP);
      OpenHeads(s, OpenMajor(s));
      OpensIsLocal(s, t);
      assert (s + t)[1..] == s[1..] + t;
      if strings {
        SkipChunksIsLocal(s[1..], s[0] / 32, t);
      } else {
        SkipOpenIsLocal(s[1..], t);
      }
    }
  }

  lemma {:induction false} SkipOpenIsLocal(s: Bytes, t: Bytes)
    requires SkipOpen(s).Some?
    ensures SkipOpen(s + t) == SkipOpen(s)
    decreases |s|, 1
  {
    hide Skip;
    if s[0] != BREAK {
      var k := Skip(s).value;
      SkipIsLocal(s, t);
      SkipOpenIsLocal(s[k..], t);
      assert (s + t)[k..] == s[k..] + t;
    }
  }

  lemma {:induction false} SkipChunksIsLocal(s: Bytes, major: nat, t: Bytes)
    requires SkipChunks(s, major).Some?
    ensures SkipChunks(s + t, major) == SkipChunks(s, major)
    decreases |s|, 0
  {
    hide ReadHead;
    if s[0] != BREAK {
      HeadIsLocal(s, t);
      var k := ReadHead(s).value.size + ReadHead(s).value.arg;
      SkipChunksIsLocal(s[k..], major, t);
      assert (s + t)[k..] == s[k..] + t;
    }
  }

  lemma {:induction false} SkipManyIsLocal(s: Bytes, count: nat, t: Bytes)
    requires SkipMany(s, count).Some?
    ensures SkipMany(s + t, count) == SkipMany(s, count)
    decreases |s|, 1, count
  {
    hide Skip;
    if count > 0 {
      var k := Skip(s).value;
      var rest := s[k..];
      SkipIsLocal(s, t);
      SkipManyIsLocal(rest, count - 1, t);
      DropThenAppend(s, t, k);
      assert SkipMany(s + t, count) == Then(k, SkipMany(rest + t, count - 1));
    }
  }

  lemma DropThenAppend(s: Bytes, t: Bytes, k: nat)
    requires k <= |s|
    ensures (s + t)[k..] == s[k..] + t
  {
  }

  /** What skipping delimits is itself one complete item. */
  lemma {:induction false} SkipPrefix(s: Bytes)
    requires Skip(s).Some?
    ensures IsItem(s[..Skip(s).value])
    decreases |s|, 0
  {
    hide SkipMany, SkipOpen, SkipChunks, ReadHead, Opens;
    var n := Skip(s).value;
    var x := s[..n];
    if ReadHead(s).Some? {
      var h := ReadHead(s).value;
      var start := h.size + Payload(h);
      SkipManyPrefix(s[start..], Children(h));
      assert x[start..] == s[start..][..n - start];
      SameHead(s, x);
    } else {
      var strings := !Opens(s, ARRAY) && !Opens(s, MAP);
      OpenHeads(s, OpenMajor(s));
      SameOpening(s, x);
      assert x[1..] == s[1..][..n - 1];
      if strings {
        SkipChunksPrefix(s[1..], s[0] / 32);
      } else {
        SkipOpenPrefix(s[1..]);
      }
    }
  }

  lemma SameHead(s: Bytes, x: Bytes)
    requires ReadHead(s).Some? && x <= s && ReadHead(s).value.size <= |x|
    ensures ReadHead(x) == ReadHead(s)
  {
    var h := ReadHead(s).value;
    assert x[0] == s[0] && x[1..h.size] == s[1..h.size];
  }

  lemma SameOpening(s: Bytes, x: Bytes)
    requires s != [] && s[0] % 32 == 31 && x != [] && x <= s
    ensures ReadHead(x) == None && x[0] == s[0] && forall major :: Opens(x, major) <==> Opens(s, major)
  {
  }

  lemma {:induction false} SkipOpenPrefix(s: Bytes)
    requires SkipOpen(s).Some?
    ensures SkipOpen(s[..SkipOpen(s).value]) == SkipOpen(s)
    decreases |s|, 1
  {
    hide Skip;
    if s[0] != BREAK {
      var k, n := Skip(s).value, SkipOpen(s).value;
      var x := s[..n];
      SkipPrefix(s);
      SkipIsLocal(s[..k], s[k..n]);
      assert x == s[..k] + s[k..n];
      SkipOpenPrefix(s[k..]);
      assert x[k..] == s[k..][..n - k];
    }
  }

  lemma {:induction false} SkipChunksPrefix(s: Bytes, major: nat)
    requires SkipChunks(s, major).Some?
    ensures SkipChunks(s[..SkipChunks(s, major).value], major) == SkipChunks(s, major)
    decreases |s|, 0
  {
    hide ReadHead;
    if s[0] != BREAK {
      var h, n := ReadHead(s).value, SkipChunks(s, major).value;
      var k, x := h.size + h.arg, s[..n];
      SameHead(s, x);
      SkipChunksPrefix(s[k..], major);
      assert x[k..] == s[k..][..n - k];
    }
  }

  lemma {:induction false} SkipManyPrefix(s: Bytes, count: nat)
    requires SkipMany(s, count).Some?
    ensures SkipMany(s[..SkipMany(s, count).value], count) == SkipMany(s, count)
    decreases |s|, 1, count
  {
    hide Skip;
    if count > 0 {
      var k, n := Skip(s).value, SkipMany(s, count).value;
      var x := s[..n];
      SkipPrefix(s);
      SkipIsLocal(s[..k], s[k..n]);
      assert x == s[..k] + s[k..n];
      SkipManyPrefix(s[k..], count - 1);
      assert x[k..] == s[k..][..n - k];
    }
  }

  lemma ItemThenRest(x: Bytes, t: Bytes)
    requires IsItem(x)
    ensures Skip(x + t) == Some(|x|) && (x + t)[..|x|] == x && (x + t)[|x|..] == t
  {
    SkipIsLocal(x, t);
  }

  lemma {:induction false} SkipManySplits(s: Bytes, n: nat, m: nat)
    requires SkipMany(s, n).Some?
    ensures SkipMany(s, n + m) ==
            match SkipMany(s[SkipMany(s, n).value..], m)
            case None => None
            case Some(k) => Some(SkipMany(s, n).value + k)
    decreases n
  {
    hide Skip;
    if n == 0 {
      assert s[0..] == s;
    } else {
      var k := Skip(s).value;
      var j := SkipMany(s[k..], n - 1).value;
      assert SkipMany(s, n) == Some(k + j);
      SkipManySplits(s[k..], n - 1, m);
      assert s[k..][j..] == s[k + j..];
      assert SkipMany(s, n + m) == Then(k, SkipMany(s[k..], n - 1 + m));
    }
  }

  lemma {:induction false} BigEndianBound(s: Bytes)
    ensures BigEndian(s) < Pow256(|s|)
  {
    if s != [] {
      BigEndianBound(s[..|s| - 1]);
    }
  }

  /** A head argument is a u64. */
  lemma ArgumentFits(s: Bytes)
    requires ReadHead(s).Some?
    ensures ReadHead(s).value.arg <= U64_MAX
  {
    var w := Width(s[0] % 32).value;
    PowersOf256();
    if w > 0 {
      BigEndianBound(s[1..1 + w]);
    }
  }

  // ---- Sequences of items --------------------------------------------------------------------

  function Concat(xs: seq<Bytes>): Bytes {
    if xs == [] then [] else xs[0] + Concat(xs[1..])
  }

  ghost predicate AllItems(xs: seq<Bytes>) {
    forall i | 0 <= i < |xs| :: IsItem(xs[i])
  }

  lemma ConcatHead(x: Bytes, xs: seq<Bytes>)
    ensures Concat([x] + xs) == x + Concat(xs)
  {
    assert ([x] + xs)[1..] == xs;
  }

  lemma {:induction false} ConcatSnoc(xs: seq<Bytes>, x: Bytes)
    ensures Concat(xs + [x]) == Concat(xs) + x
  {
    if xs == [] {
      assert [x][1..] == [];
    } else {
      ConcatSnoc(xs[1..], x);
      assert (xs + [x])[1..] == xs[1..] + [x];
      Associates(xs[0], Concat(xs[1..]), x);
    }
  }

  lemma {:induction false} ConcatAppend(xs: seq<Bytes>, ys: seq<Bytes>)
    ensures Concat(xs + ys) == Concat(xs) + Concat(ys)
  {
    if xs == [] {
      assert [] + ys == ys;
    } else {
      hide Concat;
      ConcatAppend(xs[1..], ys);
      ConcatHead(xs[0], xs[1..]);
      ConcatHead(xs[0], xs[1..] + ys);
      assert [xs[0]] + xs[1..] == xs && [xs[0]] + (xs[1..] + ys) == xs + ys;
      Associates(xs[0], Concat(xs[1..]), Concat(ys));
    }
  }

  lemma Associates(a: Bytes, b: Bytes, c: Bytes)
    ensures a + (b + c) == (a + b) + c
  {
  }

  lemma {:induction false} SkipItems(xs: seq<Bytes>, t: Bytes)
    requires AllItems(xs)
    ensures SkipMany(Concat(xs) + t, |xs|) == Some(|Concat(xs)|)
  {
    hide Skip, IsItem;
    if xs != [] {
      var rest := Concat(xs[1..]) + t;
      assert Concat(xs) + t == xs[0] + rest;
      ItemThenRest(xs[0], rest);
      SkipItems(xs[1..], t);
    }
  }

  /** The first n items of a byte string. */
  function ReadItems(s: Bytes, n: nat): (r: Option<seq<Bytes>>)
    ensures r.Some? ==> |r.value| == n && |Concat(r.value)| <= |s|
  {
    if n == 0 then Some([]) else
      match Skip(s)
      case None => None
      case Some(k) =>
        match ReadItems(s[k..], n - 1)
        case None => None
        case Some(xs) =>
          assert ([s[..k]] + xs)[1..] == xs;
          Some([s[..k]] + xs)
  }

  lemma FirstAndRest(xs: seq<Bytes>)
    requires AllItems(xs) && xs != []
    ensures IsItem(xs[0]) && AllItems(xs[1..]) && Concat(xs) == xs[0] + Concat(xs[1..])
  {
    hide IsItem;
  }

  lemma {:induction false} ReadItemsRoundTrip(xs: seq<Bytes>, t: Bytes)
    requires AllItems(xs)
    ensures ReadItems(Concat(xs) + t, |xs|) == Some(xs)
  {
    if xs != [] {
      hide AllItems, IsItem, Concat, ReadItems;
      FirstAndRest(xs);
      Associates(xs[0], Concat(xs[1..]), t);
      ReadItemsRoundTrip(xs[1..], t);
      ReadItemThen(xs[0], Concat(xs[1..]) + t, |xs| - 1);
      assert [xs[0]] + xs[1..] == xs;
    }
  }

  lemma ReadItemThen(x: Bytes, rest: Bytes, n: nat)
    requires IsItem(x)
    ensures ReadItems(x + rest, n + 1) ==
            match ReadItems(rest, n)
            case None => None
            case Some(xs) => Some([x] + xs)
  {
    hide Skip, IsItem;
    ItemThenRest(x, rest);
  }

  lemma {:induction false} ReadItemsAreItems(s: Bytes, n: nat)
    requires ReadItems(s, n).Some?
    ensures var xs := ReadItems(s, n).value; AllItems(xs) && |xs| == n && n <= |s|
  {
    hide IsItem;
    if n > 0 {
      SkipPrefix(s);
      ReadItemsAreItems(s[Skip(s).value..], n - 1);
    }
  }

  /** An array, map or tag head followed by its children is one item. */
  lemma ContainerItem(major: nat, arg: nat, xs: seq<Bytes>)
    requires major == ARRAY || major == MAP || major == TAG
    requires arg <= U64_MAX && AllItems(xs) && |xs| == Children(Head(major, arg, 1))
    ensures IsItem(WriteHead(major, arg) + Concat(xs))
  {
    hide WriteHead, ReadHead, SkipMany;
    var head := WriteHead(major, arg);
    HeadRoundTrip(major, arg, Concat(xs));
    SkipItems(xs, []);
    assert (head + Concat(xs))[|head|..] == Concat(xs) + [];
  }

  /** An array head followed by some of its elements: what is skipped depends on what follows. */
  lemma PartialArray(n: nat, xs: seq<Bytes>, t: Bytes)
    requires |xs| <= n <= U64_MAX && AllItems(xs)
    ensures Skip(WriteHead(ARRAY, n) + (Concat(xs) + t))
         == Then(|WriteHead(ARRAY, n)| + |Concat(xs)|, SkipMany(t, n - |xs|))
  {
    hide WriteHead, ReadHead, SkipMany, Concat, AllItems;
    var head, s := WriteHead(ARRAY, n), Concat(xs) + t;
    HeadRoundTrip(ARRAY, n, s);
    assert (head + s)[|head|..] == s;
    SkipItems(xs, t);
    SkipManySplits(s, |xs|, n - |xs|);
    assert s[|Concat(xs)|..] == t;
  }

  lemma StringItem(b: Bytes)
    requires |b| <= U64_MAX
    ensures IsItem(WriteHead(BYTES, |b|) + b)
  {
    hide WriteHead, ReadHead;
    HeadRoundTrip(BYTES, |b|, b);
    NoItems((WriteHead(BYTES, |b|) + b)[|WriteHead(BYTES, |b|)| + |b|..]);
  }

  lemma NumberItem(n: nat)
    requires n <= U64_MAX
    ensures IsItem(WriteHead(UNSIGNED, n))
  {
    hide WriteHead, ReadHead;
    HeadRoundTrip(UNSIGNED, n, []);
    assert WriteHead(UNSIGNED, n) + [] == WriteHead(UNSIGNED, n);
    NoItems(WriteHead(UNSIGNED, n)[|WriteHead(UNSIGNED, n)|..]);
  }

  lemma ConstantItem(b: byte)
    requires b == FALSE || b == TRUE || b == NULL
    ensures IsItem([b])
  {
    assert b / 32 == SIMPLE && b % 32 < 24;
  }

  lemma SmallNumber(n: byte, t: Bytes)
    requires n < 24
    ensures Skip([n] + t) == Some(1) && ([n] + t)[1..] == t
  {
    NoItems(t);
  }

  /** Items spelled as in RFC 8949, appendix A, with a byte after them: an array, a map, a byte string, a tagged number
      and a number of two bytes. */
  lemma StandardItems(next: byte)
    ensures Skip([0x83, 0x01, 0x02, 0x03, next]) == Some(4)
    ensures Skip([0xa1, 0x01, 0x02, next]) == Some(3)
    ensures Skip([0x42, 0x01, 0x02, next]) == Some(3)
    ensures Skip([0xc1, 0x01, next]) == Some(2)
    ensures Skip([0x18, 0x64, next]) == Some(2)
  {
    hide Skip;
    StandardContainers(next);
    StandardStrings(next);
  }

  lemma StandardContainers(next: byte)
    ensures Skip([0x83, 0x01, 0x02, 0x03, next]) == Some(4)
    ensures Skip([0xa1, 0x01, 0x02, next]) == Some(3)
    ensures Skip([0xc1, 0x01, next]) == Some(2)
  {
    hide SkipMany, SkipOpen, SkipChunks;
    ThreeNumbers(next);
    assert [0x83, 0x01, 0x02, 0x03, next][1..] == [0x01, 0x02, 0x03, next];
    assert [0xa1, 0x01, 0x02, next][1..] == [0x01, 0x02, next];
    assert [0xc1, 0x01, next][1..] == [0x01, next];
  }

  lemma StandardStrings(next: byte)
    ensures Skip([0x42, 0x01, 0x02, next]) == Some(3)
    ensures Skip([0x18, 0x64, next]) == Some(2)
  {
    hide SkipMany, SkipOpen, SkipChunks;
    NoItems([next]);
    assert [0x42, 0x01, 0x02, next][3..] == [next];
    assert [0x18, 0x64, next][2..] == [next];
  }

  /** The same of indefinite length: an array, a map and a byte string. */
  lemma StandardOpenItems(next: byte)
    ensures Skip([0x9f, 0x01, 0x02, 0xff, next]) == Some(4)
    ensures Skip([0xbf, 0x01, 0x02, 0xff, next]) == Some(4)
    ensures Skip([0x5f, 0x41, 0x01, 0xff, next]) == Some(4)
  {
    hide SkipMany, SkipOpen, SkipChunks;
    OpenNumbers(next);
    Chunk(next);
    assert [0x9f, 0x01, 0x02, 0xff, next][1..] == [0x01, 0x02, 0xff, next];
    assert [0xbf, 0x01, 0x02, 0xff, next][1..] == [0x01, 0x02, 0xff, next];
    assert [0x5f, 0x41, 0x01, 0xff, next][1..] == [0x41, 0x01, 0xff, next];
  }

  /** Not items: a break on its own, a reserved head, an array or a string cut short, an array that is not closed, */
  lemma CutItems(rest: Bytes)
    ensures Skip([0xff] + rest) == None && Skip([0x1c] + rest) == None
    ensures Skip([0x82, 0x01]) == None && Skip([0x42, 0x01]) == None && Skip([0x9f, 0x01]) == None
  {
    hide Skip;
    NoHeads(rest);
    CutArray();
    CutString();
    OpenArray();
  }

  lemma NoHeads(rest: Bytes)
    ensures Skip([0xff] + rest) == None && Skip([0x1c] + rest) == None
  {
    hide SkipMany, SkipOpen, SkipChunks;
  }

  lemma CutArray()
    ensures Skip([0x82, 0x01]) == None
  {
    hide SkipMany, SkipOpen, SkipChunks;
    OneOfTwo();
    assert [0x82, 0x01][1..] == [0x01];
  }

  lemma CutString()
    ensures Skip([0x42, 0x01]) == None
  {
    hide SkipMany, SkipOpen, SkipChunks;
  }

  lemma OpenArray()
    ensures Skip([0x9f, 0x01]) == None
  {
    hide SkipMany, SkipOpen, SkipChunks;
    NotClosed();
    assert [0x9f, 0x01][1..] == [0x01];
  }

  /** and a byte string with a text chunk. */
  lemma TextInBytes(rest: Bytes)
    ensures Skip([0x5f] + ([0x61] + rest)) == None
  {
    hide SkipMany, SkipOpen, SkipChunks;
    OtherChunk(rest);
    assert ([0x5f] + ([0x61] + rest))[1..] == [0x61] + rest;
  }

  lemma OneOfTwo()
    ensures SkipMany([0x01], 2) == None
  {
    hide Skip;
    NothingToSkip();
    SmallNumber(0x01, []);
    assert [0x01] + [] == [0x01];
    assert SkipMany([0x01][1..], 1) == None;
  }

  lemma NotClosed()
    ensures SkipOpen([0x01]) == None
  {
    hide Skip;
    SmallNumber(0x01, []);
    assert [0x01] + [] == [0x01];
  }

  lemma OtherChunk(rest: Bytes)
    ensures SkipChunks([0x61] + rest, BYTES) == None
  {
  }

  lemma ThreeNumbers(next: byte)
    ensures SkipMany([0x01, 0x02, 0x03, next], 3) == Some(3) && SkipMany([0x01, 0x02, next], 2) == Some(2)
    ensures SkipMany([0x01, next], 1) == Some(1)
  {
    hide Skip, SkipMany;
    var t := [next];
    NoItems(t);
    OneNumber(0x01, t, 0);
    OneNumber(0x02, t, 0);
    OneNumber(0x03, t, 0);
    OneNumber(0x02, [0x03] + t, 1);
    OneNumber(0x01, [0x02] + t, 1);
    OneNumber(0x01, [0x02] + ([0x03] + t), 2);
    assert [0x01, 0x02, 0x03, next] == [0x01] + ([0x02] + ([0x03] + t)) && [0x01, 0x02, next] == [0x01] + ([0x02] + t);
    assert [0x01, next] == [0x01] + t;
  }

  lemma OneNumber(n: byte, t: Bytes, count: nat)
    requires n < 24
    ensures SkipMany([n] + t, count + 1) == Then(1, SkipMany(t, count))
  {
    hide Skip;
    SmallNumber(n, t);
  }

  lemma OpenNumbers(next: byte)
    ensures SkipOpen([0x01, 0x02, 0xff, next]) == Some(3)
  {
    hide Skip;
    var t := [0xff, next];
    assert SkipOpen(t) == Some(1);
    SmallNumber(0x02, t);
    assert SkipOpen([0x02] + t) == Some(2);
    SmallNumber(0x01, [0x02] + t);
    assert SkipOpen([0x01] + ([0x02] + t)) == Some(3);
    assert [0x01, 0x02, 0xff, next] == [0x01] + ([0x02] + t);
  }

  lemma Chunk(next: byte)
    ensures SkipChunks([0x41, 0x01, 0xff, next], BYTES) == Some(3)
  {
    assert [0x41, 0x01, 0xff, next][2..] == [0xff, next];
    assert SkipChunks([0xff, next], BYTES) == Some(1);
  }

  // ---- The decoder ---------------------------------------------------------------------------

  class Decoder {
    const buf: Bytes
    var pos: nat

    ghost predicate Valid()
      reads this
    {
      pos <= |buf|
    }

    ghost function Rest(): Bytes
      reads this
      requires Valid()
    {
      buf[pos..]
    }

    constructor (buf: Bytes)
      ensures this.buf == buf && pos == 0 && Valid() && Rest() == buf
    {
      this.buf, pos := buf, 0;
    }

    method Head() returns (h: Option<Head>)
      requires Valid()
      modifies this
      ensures Valid()
      ensures h == ReadHead(old(Rest()))
      ensures h.Some? ==> pos == old(pos) + h.value.size
      ensures h == None ==> pos == old(pos)
    {
      h := ReadHead(buf[pos..]);
      if h.Some? {
        pos := pos + h.value.size;
      }
    }

    /** The length of an array or map head, the value of an integer head: the argument when the major
        type is the expected one. */
    method Expect(major: nat) returns (arg: Option<nat>)
      requires Valid()
      modifies this
      ensures Valid()
      ensures arg == Argument(old(Rest()), major)
      ensures arg.Some? ==> pos > old(pos) && Rest() == AfterHead(old(Rest()))
    {
      hide ReadHead;
      ghost var s := Rest();
      var h := Head();
      arg := if h.Some? && h.value.major == major then Some(h.value.arg) else None;
      if h.Some? {
        assert buf[pos..] == s[h.value.size..];
      }
    }

    /** The length of an array or map: none for an indefinite one. */
    method Container(major: nat) returns (length: Option<Option<nat>>)
      requires Valid()
      modifies this
      ensures Valid()
      ensures length == Length(old(Rest()), major)
      ensures length.Some? ==> pos > old(pos) && Rest() == AfterLength(old(Rest()), major)
    {
      hide ReadHead;
      ghost var s := Rest();
      if pos < |buf| && buf[pos] == major * 32 + 31 {
        pos := pos + 1;
        assert buf[pos..] == s[1..];
        return Some(None);
      }
      var arg := Expect(major);
      length := if arg.Some? then Some(arg) else None;
    }

    /** Skip the chunks of an indefinite-length string. */
    method SkipString(major: nat) returns (ok: bool)
      requires Valid()
      modifies this
      ensures Valid() && pos >= old(pos)
      ensures ok == SkipChunks(old(Rest()), major).Some?
      ensures ok ==> pos == old(pos) + SkipChunks(old(Rest()), major).value
    {
      hide ReadHead, SkipChunks;
      ghost var s0 := Rest();
      while pos < |buf| && buf[pos] != BREAK
        invariant old(pos) <= pos <= |buf|
        invariant SkipChunks(s0, major) == Then(pos - old(pos), SkipChunks(Rest(), major))
        decreases |buf| - pos
      {
        ghost var before := pos;
        NextChunk(Rest(), major);
        var h := Head();
        if h == None || h.value.major != major || pos + h.value.arg > |buf| {
          return false;
        }
        pos := pos + h.value.arg;
        Slices(buf, before, pos);
      }
      LastChunk(Rest(), major);
      ok := pos < |buf|;
      pos := if ok then pos + 1 else pos;
    }

    /** Read the head of an item and, of a string, its content; what is left is the container it opens. */
    method SkipHead() returns (inner: Option<Option<nat>>)
      requires Valid()
      modifies this
      ensures Valid() && pos >= old(pos)
      ensures inner == None ==> Skip(old(Rest())) == None
      ensures inner.Some? ==> && pos > old(pos)
                              && Skip(old(Rest())) == Then(pos - old(pos), SkipTop(buf[pos..], inner.value))
    {
      hide SkipMany, SkipOpen, SkipChunks, ReadHead;
      ghost var s, before := Rest(), pos;
      var h := Head();
      if h.Some? {
        if pos + Payload(h.value) > |buf| {
          return None;
        }
        pos := pos + Payload(h.value);
        Slices(buf, before, pos);
        return Some(Some(Children(h.value)));
      }
      if pos == |buf| {
        return None;
      }
      var first := buf[pos];
      if first == ARRAY * 32 + 31 || first == MAP * 32 + 31 {
        pos := pos + 1;
        Slices(buf, before, pos);
        return Some(None);
      }
      if first == BYTES * 32 + 31 || first == TEXT * 32 + 31 {
        pos := pos + 1;
        Slices(buf, before, pos);
        var ok := SkipString(first / 32);
        NoItems(Rest());
        return if ok then Some(Some(0)) else None;
      }
      return None;
    }

    /** Close the innermost container, or skip the next head in it: what the open containers then are. */
    method SkipNext(open: seq<Option<nat>>) returns (left: Option<seq<Option<nat>>>)
      requires Valid() && open != []
      modifies this
      ensures Valid() && pos >= old(pos)
      ensures left == None ==> SkipStack(old(Rest()), open) == None
      ensures left.Some? ==> SkipStack(old(Rest()), open) == Then(pos - old(pos), SkipStack(Rest(), left.value))
      ensures left.Some? ==> pos > old(pos) || |left.value| < |open|
    {
      hide Skip, SkipStack, SkipTop, ReadHead;
      var last := |open| - 1;
      if open[last] == Some(0) {
        PopCounted(Rest(), open);
        return Some(open[..last]);
      }
      if open[last] == None && pos < |buf| && buf[pos] == BREAK {
        PopOpen(Rest(), open);
        pos := pos + 1;
        Slices(buf, pos - 1, pos);
        return Some(open[..last]);
      }
      ghost var s, before := Rest(), pos;
      NextOnStack(s, open);
      var less := if open[last].Some? then Some(open[last].value - 1) else None;
      var inner := SkipHead();
      if inner == None {
        return None;
      }
      Slices(buf, before, pos);
      PushOnStack(s, pos - before, inner.value, open[..last] + [less]);
      left := Some(open[..last] + [less] + [inner.value]);
    }

    /** Skip one item with a stack of the containers still open instead of recursion. */
    method SkipItem() returns (ok: bool)
      requires Valid()
      modifies this
      ensures Valid()
      ensures ok == Skip(old(Rest())).Some?
      ensures ok ==> var s, n := old(Rest()), Skip(old(Rest())).value;
                     pos == old(pos) + n && buf[old(pos)..pos] == s[..n] && Rest() == s[n..]
    {
      hide Skip, SkipStack;
      var open: seq<Option<nat>> := [Some(1)];
      ghost var s0 := Rest();
      StartStack(s0);
      while open != []
        invariant old(pos) <= pos <= |buf|
        invariant Skip(s0) == Then(pos - old(pos), SkipStack(Rest(), open))
        decreases |buf| - pos, |open|
      {
        var left := SkipNext(open);
        if left == None {
          return false;
        }
        open := left.value;
      }
      EmptyStack(Rest());
      Slices(buf, old(pos), pos);
      return true;
    }

    method Bool() returns (b: Option<bool>)
      requires Valid()
      modifies this
      ensures Valid()
      ensures b == ReadBool(old(Rest()))
      ensures b.Some? ==> pos == old(pos) + 1 && Rest() == old(Rest())[1..]
    {
      if pos < |buf| && (buf[pos] == FALSE || buf[pos] == TRUE) {
        b := Some(buf[pos] == TRUE);
        assert buf[pos + 1..] == buf[pos..][1..];
        pos := pos + 1;
      } else {
        b := None;
      }
    }

    /** A byte string. */
    method ByteString() returns (b: Option<Bytes>)
      requires Valid()
      modifies this
      ensures Valid()
      ensures b == ReadBytes(old(Rest()))
      ensures b.Some? ==> Rest() == AfterBytes(old(Rest()))
    {
      hide ReadHead;
      ghost var s := Rest();
      var len := Expect(BYTES);
      if len == None || pos + len.value > |buf| {
        return None;
      }
      assert AfterHead(s)[..len.value] == s[ReadHead(s).value.size..ReadHead(s).value.size + len.value];
      assert buf[pos..pos + len.value] == AfterHead(s)[..len.value];
      assert buf[pos + len.value..] == AfterHead(s)[len.value..];
      b := Some(buf[pos..pos + len.value]);
      pos := pos + len.value;
    }
  }

  /** What an array or map head announces: a length, or none when a break will end it. */
  function Length(s: Bytes, major: nat): Option<Option<nat>> {
    if Opens(s, major) then Some(None)
    else if Argument(s, major).Some? then Some(Argument(s, major))
    else None
  }

  function AfterLength(s: Bytes, major: nat): Bytes
    requires Length(s, major).Some?
  {
    if Opens(s, major) then s[1..] else AfterHead(s)
  }

  function AfterHead(s: Bytes): Bytes
    requires ReadHead(s).Some?
  {
    s[ReadHead(s).value.size..]
  }

  function AfterBytes(s: Bytes): Bytes
    requires ReadBytes(s).Some?
  {
    AfterHead(s)[|ReadBytes(s).value|..]
  }

  lemma Slices(buf: Bytes, a: nat, b: nat)
    requires a <= b <= |buf|
    ensures buf[a..][b - a..] == buf[b..] && buf[a..][..b - a] == buf[a..b]
  {
  }

  function Argument(s: Bytes, major: nat): Option<nat> {
    match ReadHead(s)
    case None => None
    case Some(h) => if h.major == major then Some(h.arg) else None
  }

  /** A written head reads back, whatever follows. */
  lemma ReadHeadBack(major: nat, arg: nat, rest: Bytes)
    requires major < 8 && arg <= U64_MAX
    ensures Argument(WriteHead(major, arg) + rest, major) == Some(arg)
    ensures AfterHead(WriteHead(major, arg) + rest) == rest
  {
    hide WriteHead, ReadHead;
    HeadRoundTrip(major, arg, rest);
  }

  /** A byte string. */
  function WriteBytes(b: Bytes): Bytes
    requires |b| <= U64_MAX
  {
    WriteHead(BYTES, |b|) + b
  }

  lemma ReadBytesBack(b: Bytes, rest: Bytes)
    requires |b| <= U64_MAX
    ensures ReadBytes(WriteBytes(b) + rest) == Some(b)
    ensures AfterBytes(WriteBytes(b) + rest) == rest
  {
    hide WriteHead, ReadHead;
    var head := WriteHead(BYTES, |b|);
    assert WriteBytes(b) + rest == head + (b + rest);
    HeadRoundTrip(BYTES, |b|, b + rest);
    assert (head + (b + rest))[|head|..|head| + |b|] == b;
  }

  /** A head with an argument announces it as the length. */
  lemma DefiniteLength(s: Bytes, major: nat)
    requires Argument(s, major).Some?
    ensures !Opens(s, major) && Length(s, major) == Some(Argument(s, major)) && AfterLength(s, major) == AfterHead(s)
  {
    if Opens(s, major) {
      OpenHeads(s, major);
    }
  }

  function ReadBool(s: Bytes): Option<bool> {
    if s != [] && (s[0] == FALSE || s[0] == TRUE) then Some(s[0] == TRUE) else None
  }

  function ReadBytes(s: Bytes): Option<Bytes> {
    match ReadHead(s)
    case None => None
    case Some(h) =>
      if h.major == BYTES && h.size + h.arg <= |s| then Some(s[h.size..h.size + h.arg]) else None
  }

  lemma NoItems(s: Bytes)
    ensures SkipMany(s, 0) == Some(0)
  {
  }

  lemma OneItem(s: Bytes)
    ensures SkipMany(s, 1) == Skip(s)
    ensures s[0..] == s
  {
  }

  lemma NextChunk(s: Bytes, major: nat)
    requires s != [] && s[0] != BREAK
    ensures var h := ReadHead(s);
            SkipChunks(s, major) ==
            if h == None || h.value.major != major || |s| < h.value.size + h.value.arg then None
            else Then(h.value.size + h.value.arg, SkipChunks(s[h.value.size + h.value.arg..], major))
  {
    hide ReadHead;
  }

  lemma LastChunk(s: Bytes, major: nat)
    requires s == [] || s[0] == BREAK
    ensures SkipChunks(s, major) == if s == [] then None else Some(1)
  {
  }

  /** What is left of the innermost container: so many items, or all up to a break. */
  function SkipTop(s: Bytes, top: Option<nat>): (n: Option<nat>)
    ensures n.Some? ==> n.value <= |s|
  {
    match top
    case Some(count) => SkipMany(s, count)
    case None => SkipOpen(s)
  }

  /** What is left of all open containers, the innermost one last. */
  function SkipStack(s: Bytes, open: seq<Option<nat>>): Option<nat>
    decreases |open|
  {
    if open == [] then Some(0) else
      match SkipTop(s, open[|open| - 1])
      case None => None
      case Some(k) => Then(k, SkipStack(s[k..], open[..|open| - 1]))
  }

  lemma StartStack(s: Bytes)
    ensures SkipStack(s, [Some(1)]) == Skip(s)
  {
    hide Skip, SkipMany;
    OneItem(s);
    if Skip(s).Some? {
      EmptyStack(s[Skip(s).value..]);
    }
    assert [Some(1)][..0] == [];
  }

  lemma EmptyStack(s: Bytes)
    ensures SkipStack(s, []) == Some(0)
  {
  }

  lemma PopCounted(s: Bytes, open: seq<Option<nat>>)
    requires open != [] && open[|open| - 1] == Some(0)
    ensures SkipStack(s, open) == SkipStack(s, open[..|open| - 1])
  {
    NoItems(s);
    assert s[0..] == s;
  }

  lemma PopOpen(s: Bytes, open: seq<Option<nat>>)
    requires open != [] && open[|open| - 1] == None && s != [] && s[0] == BREAK
    ensures SkipStack(s, open) == Then(1, SkipStack(s[1..], open[..|open| - 1]))
  {
  }

  /** The innermost container starts with an item. */
  lemma NextOnStack(s: Bytes, open: seq<Option<nat>>)
    requires open != [] && open[|open| - 1] != Some(0)
    requires open[|open| - 1] == None ==> s == [] || s[0] != BREAK
    ensures var top := open[|open| - 1];
            var rest := open[..|open| - 1] + [if top.Some? then Some(top.value - 1) else None];
            SkipStack(s, open) ==
            match Skip(s)
            case None => None
            case Some(k) => Then(k, SkipStack(s[k..], rest))
  {
    hide Skip, SkipTop, SkipStack;
    var top, front := open[|open| - 1], open[..|open| - 1];
    var less := if top.Some? then Some(top.value - 1) else None;
    assert open == front + [top];
    TopItem(s, top);
    StackTop(s, front, top);
    if Skip(s).Some? {
      var k := Skip(s).value;
      var after := SkipTop(s[k..], less);
      StackTop(s[k..], front, less);
      if after.Some? {
        Slices(s, k, k + after.value);
      }
    }
  }

  lemma StackTop(s: Bytes, front: seq<Option<nat>>, top: Option<nat>)
    ensures SkipStack(s, front + [top]) ==
            match SkipTop(s, top)
            case None => None
            case Some(k) => Then(k, SkipStack(s[k..], front))
  {
    hide SkipTop;
    assert (front + [top])[..|front|] == front;
  }

  lemma TopItem(s: Bytes, top: Option<nat>)
    requires top != Some(0) && (top == None ==> s == [] || s[0] != BREAK)
    ensures SkipTop(s, top) ==
            match Skip(s)
            case None => None
            case Some(k) => Then(k, SkipTop(s[k..], if top.Some? then Some(top.value - 1) else None))
  {
    hide Skip;
    if s == [] {
      NothingToSkip();
    }
    if top.Some? {
      NextInMany(s, top.value);
    }
  }

  lemma NothingToSkip()
    ensures Skip([]) == None
  {
  }

  /** The item at the front opens a container of its own. */
  lemma PushOnStack(s: Bytes, start: nat, inner: Option<nat>, open: seq<Option<nat>>)
    requires start <= |s| && Skip(s) == Then(start, SkipTop(s[start..], inner))
    ensures match Skip(s)
            case None => SkipStack(s[start..], open + [inner]) == None
            case Some(k) => Then(k, SkipStack(s[k..], open)) == Then(start, SkipStack(s[start..], open + [inner]))
  {
    hide Skip, SkipTop, SkipStack;
    StackTop(s[start..], open, inner);
    var after := SkipTop(s[start..], inner);
    if after.Some? {
      Slices(s, start, start + after.value);
    }
  }

  lemma NextInMany(s: Bytes, count: nat)
    requires count > 0
    ensures SkipMany(s, count) ==
            match Skip(s)
            case None => None
            case Some(k) => Then(k, SkipMany(s[k..], count - 1))
  {
    hide Skip;
  }
}
