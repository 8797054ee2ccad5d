/** The test vectors of BIP-173, section "Test vectors", that the encoder can make. */
module Bech32Examples {
  import opened Cbor
  import opened Bech32Checksum
  import opened Bech32

  /** One step of the register in a single expression. */
  function Stepped(chk: bv32, v: bv32): bv32 {
    var c, top := Xor(Low(chk), v), High(chk);
    Xor(Xor(Xor(Xor(Xor(c, Term(Bit(top, 0), 0x3b6a57b2)), Term(Bit(top, 1), 0x26508e6d)),
                Term(Bit(top, 2), 0x1ea119fa)), Term(Bit(top, 3), 0x3d4233dd)), Term(Bit(top, 4), 0x2a1462b3))
  }

  lemma StepIs(chk: bv32, v: bv32)
    ensures Step(chk, v) == Stepped(chk, v)
  {
    hide Xor, Term, Bit, Low, High;
    var c, top := Xor(Low(chk), v), High(chk);
    assert Feed(c, top, 1) == Xor(Feed(c, top, 0), Term(Bit(top, 0), GEN[0]));
    assert Feed(c, top, 2) == Xor(Feed(c, top, 1), Term(Bit(top, 1), GEN[1]));
    assert Feed(c, top, 3) == Xor(Feed(c, top, 2), Term(Bit(top, 2), GEN[2]));
    assert Feed(c, top, 4) == Xor(Feed(c, top, 3), Term(Bit(top, 3), GEN[3]));
  }

  lemma NextAt(start: bv32, values: seq<bv32>, k: nat, chk: bv32, next: bv32)
    requires k < |values| && Run(start, values[..k]) == chk && Stepped(chk, values[k]) == next
    ensures Run(start, values[..k + 1]) == next
  {
    hide Step, Stepped;
    assert values[..k + 1][..k] == values[..k];
    StepIs(chk, values[k]);
  }

  lemma NothingRun(start: bv32, values: seq<bv32>)
    ensures Run(start, values[..0]) == start && values[..|values|] == values
  {
  }

  // ---- The prefix a with no data -------------------------------------------------------------

  const EMPTY: seq<bv32> := [3, 0, 1, 0, 0, 0, 0, 0, 0]

  lemma EmptySteps()
    ensures Stepped(0x1, 3) == 0x23
    ensures Stepped(0x23, 0) == 0x460
    ensures Stepped(0x460, 1) == 0x8c01
    ensures Stepped(0x8c01, 0) == 0x118020
    ensures Stepped(0x118020, 0) == 0x2300400
    ensures Stepped(0x2300400, 0) == 0x3d6ad7b2
    ensures Stepped(0x3d6ad7b2, 0) == 0x2fd30b9
    ensures Stepped(0x2fd30b9, 0) == 0x24cc4092
    ensures Stepped(0x24cc4092, 0) == 0x15ccfe9e
  {
  }

  lemma EmptyRuns()
    ensures Run(0x1, EMPTY) == 0x15ccfe9e
  {
    hide Stepped, Run;
    EmptySteps();
    NothingRun(0x1, EMPTY);
    NextAt(0x1, EMPTY, 0, 0x1, 0x23);
    NextAt(0x1, EMPTY, 1, 0x23, 0x460);
    NextAt(0x1, EMPTY, 2, 0x460, 0x8c01);
    NextAt(0x1, EMPTY, 3, 0x8c01, 0x118020);
    NextAt(0x1, EMPTY, 4, 0x118020, 0x2300400);
    NextAt(0x1, EMPTY, 5, 0x2300400, 0x3d6ad7b2);
    NextAt(0x1, EMPTY, 6, 0x3d6ad7b2, 0x2fd30b9);
    NextAt(0x1, EMPTY, 7, 0x2fd30b9, 0x24cc4092);
    NextAt(0x1, EMPTY, 8, 0x24cc4092, 0x15ccfe9e);
  }

  // ---- The prefix abcdef with all symbols in order -------------------------------------------

  const HIGH: seq<bv32> := [3, 3, 3, 3, 3, 3, 0]

  lemma HighSteps()
    ensures Stepped(0x1, 3) == 0x23
    ensures Stepped(0x23, 3) == 0x463
    ensures Stepped(0x463, 3) == 0x8c63
    ensures Stepped(0x8c63, 3) == 0x118c63
    ensures Stepped(0x118c63, 3) == 0x2318c63
    ensures Stepped(0x2318c63, 3) == 0x3d5bdbd1
    ensures Stepped(0x3d5bdbd1, 0) == 0x4dcbcd9
  {
  }

  lemma HighRuns()
    ensures Run(0x1, HIGH) == 0x4dcbcd9
  {
    hide Stepped, Run;
    HighSteps();
    NothingRun(0x1, HIGH);
    NextAt(0x1, HIGH, 0, 0x1, 0x23);
    NextAt(0x1, HIGH, 1, 0x23, 0x463);
    NextAt(0x1, HIGH, 2, 0x463, 0x8c63);
    NextAt(0x1, HIGH, 3, 0x8c63, 0x118c63);
    NextAt(0x1, HIGH, 4, 0x118c63, 0x2318c63);
    NextAt(0x1, HIGH, 5, 0x2318c63, 0x3d5bdbd1);
    NextAt(0x1, HIGH, 6, 0x3d5bdbd1, 0x4dcbcd9);
  }

  const LOW: seq<bv32> := [1, 2, 3, 4, 5, 6]

  lemma LowSteps()
    ensures Stepped(0x4dcbcd9, 1) == 0x3dc7154c
    ensures Stepped(0x3dc7154c, 2) == 0x17456f7b
    ensures Stepped(0x17456f7b, 3) == 0x8d50561
    ensures Stepped(0x8d50561, 4) == 0x401b5de
    ensures Stepped(0x401b5de, 5) == 0x266635a8
    ensures Stepped(0x266635a8, 6) == 0x3be80e6a
  {
  }

  lemma LowRuns()
    ensures Run(0x4dcbcd9, LOW) == 0x3be80e6a
  {
    hide Stepped, Run;
    LowSteps();
    NothingRun(0x4dcbcd9, LOW);
    NextAt(0x4dcbcd9, LOW, 0, 0x4dcbcd9, 0x3dc7154c);
    NextAt(0x4dcbcd9, LOW, 1, 0x3dc7154c, 0x17456f7b);
    NextAt(0x4dcbcd9, LOW, 2, 0x17456f7b, 0x8d50561);
    NextAt(0x4dcbcd9, LOW, 3, 0x8d50561, 0x401b5de);
    NextAt(0x4dcbcd9, LOW, 4, 0x401b5de, 0x266635a8);
    NextAt(0x4dcbcd9, LOW, 5, 0x266635a8, 0x3be80e6a);
  }

  const FIRST: seq<bv32> := [0, 1, 2, 3, 4, 5, 6, 7]

  lemma FirstSteps()
    ensures Stepped(0x3be80e6a, 0) == 0xf9cd266
    ensures Stepped(0xf9cd266, 1) == 0x30018ce4
    ensures Stepped(0x30018ce4, 2) == 0x1767cdec
    ensures Stepped(0x1767cdec, 3) == 0xc815781
    ensures Stepped(0xc815781, 4) == 0x28db67b3
    ensures Stepped(0x28db67b3, 5) == 0x2fd98d2c
    ensures Stepped(0x2fd98d2c, 6) == 0x12be0710
    ensures Stepped(0x12be0710, 7) == 0x11e88668
  {
  }

  lemma FirstRuns()
    ensures Run(0x3be80e6a, FIRST) == 0x11e88668
  {
    hide Stepped, Run;
    FirstSteps();
    NothingRun(0x3be80e6a, FIRST);
    NextAt(0x3be80e6a, FIRST, 0, 0x3be80e6a, 0xf9cd266);
    NextAt(0x3be80e6a, FIRST, 1, 0xf9cd266, 0x30018ce4);
    NextAt(0x3be80e6a, FIRST, 2, 0x30018ce4, 0x1767cdec);
    NextAt(0x3be80e6a, FIRST, 3, 0x1767cdec, 0xc815781);
    NextAt(0x3be80e6a, FIRST, 4, 0xc815781, 0x28db67b3);
    NextAt(0x3be80e6a, FIRST, 5, 0x28db67b3, 0x2fd98d2c);
    NextAt(0x3be80e6a, FIRST, 6, 0x2fd98d2c, 0x12be0710);
    NextAt(0x3be80e6a, FIRST, 7, 0x12be0710, 0x11e88668);
  }

  const SECOND: seq<bv32> := [8, 9, 10, 11, 12, 13, 14, 15]

  lemma SecondSteps()
    ensures Stepped(0x11e88668, 8) == 0x52fed5
    ensures Stepped(0x52fed5, 9) == 0xa5fdaa9
    ensures Stepped(0xa5fdaa9, 10) == 0x2e301b62
    ensures Stepped(0x2e301b62, 11) == 0x2f8ccedd
    ensures Stepped(0x2f8ccedd, 12) == 0x1816793a
    ensures Stepped(0x1816793a, 13) == 0x212c0d6a
    ensures Stepped(0x212c0d6a, 14) == 0xf95cffd
    ensures Stepped(0xf95cffd, 15) == 0x31223f8a
  {
  }

  lemma SecondRuns()
    ensures Run(0x11e88668, SECOND) == 0x31223f8a
  {
    hide Stepped, Run;
    SecondSteps();
    NothingRun(0x11e88668, SECOND);
    NextAt(0x11e88668, SECOND, 0, 0x11e88668, 0x52fed5);
    NextAt(0x11e88668, SECOND, 1, 0x52fed5, 0xa5fdaa9);
    NextAt(0x11e88668, SECOND, 2, 0xa5fdaa9, 0x2e301b62);
    NextAt(0x11e88668, SECOND, 3, 0x2e301b62, 0x2f8ccedd);
    NextAt(0x11e88668, SECOND, 4, 0x2f8ccedd, 0x1816793a);
    NextAt(0x11e88668, SECOND, 5, 0x1816793a, 0x212c0d6a);
    NextAt(0x11e88668, SECOND, 6, 0x212c0d6a, 0xf95cffd);
    NextAt(0x11e88668, SECOND, 7, 0xf95cffd, 0x31223f8a);
  }

  const THIRD: seq<bv32> := [16, 17, 18, 19, 20, 21, 22, 23]

  lemma ThirdSteps()
    ensures Stepped(0x31223f8a, 16) == 0x3311a03e
    ensures Stepped(0x3311a03e, 17) == 0xe08010d
    ensures Stepped(0xe08010d, 18) == 0x29be197
    ensures Stepped(0x29be197, 19) == 0x28166541
    ensures Stepped(0x28166541, 20) == 0x3679d37d
    ensures Stepped(0x3679d37d, 21) == 0x556e704
    ensures Stepped(0x556e704, 22) == 0xc8c6efb
    ensures Stepped(0xc8c6efb, 23) == 0x297c48e0
  {
  }

  lemma ThirdRuns()
    ensures Run(0x31223f8a, THIRD) == 0x297c48e0
  {
    hide Stepped, Run;
    ThirdSteps();
    NothingRun(0x31223f8a, THIRD);
    NextAt(0x31223f8a, THIRD, 0, 0x31223f8a, 0x3311a03e);
    NextAt(0x31223f8a, THIRD, 1, 0x3311a03e, 0xe08010d);
    NextAt(0x31223f8a, THIRD, 2, 0xe08010d, 0x29be197);
    NextAt(0x31223f8a, THIRD, 3, 0x29be197, 0x28166541);
    NextAt(0x31223f8a, THIRD, 4, 0x28166541, 0x3679d37d);
    NextAt(0x31223f8a, THIRD, 5, 0x3679d37d, 0x556e704);
    NextAt(0x31223f8a, THIRD, 6, 0x556e704, 0xc8c6efb);
    NextAt(0x31223f8a, THIRD, 7, 0xc8c6efb, 0x297c48e0);
  }

  const FOURTH: seq<bv32> := [24, 25, 26, 27, 28, 29, 30, 31]

  lemma FourthSteps()
    ensures Stepped(0x297c48e0, 24) == 0x1b3c6751
    ensures Stepped(0x1b3c6751, 25) == 0x3f0597ac
    ensures Stepped(0x3f0597ac, 26) == 0x347f64d1
    ensures Stepped(0x347f64d1, 27) == 0x3eea4538
    ensures Stepped(0x3eea4538, 28) == 0x9853657
    ensures Stepped(0x9853657, 29) == 0x2e07d307
    ensures Stepped(0x2e07d307, 30) == 0x2975c268
    ensures Stepped(0x2975c268, 31) == 0x1a0d3656
  {
  }

  lemma FourthRuns()
    ensures Run(0x297c48e0, FOURTH) == 0x1a0d3656
  {
    hide Stepped, Run;
    FourthSteps();
    NothingRun(0x297c48e0, FOURTH);
    NextAt(0x297c48e0, FOURTH, 0, 0x297c48e0, 0x1b3c6751);
    NextAt(0x297c48e0, FOURTH, 1, 0x1b3c6751, 0x3f0597ac);
    NextAt(0x297c48e0, FOURTH, 2, 0x3f0597ac, 0x347f64d1);
    NextAt(0x297c48e0, FOURTH, 3, 0x347f64d1, 0x3eea4538);
    NextAt(0x297c48e0, FOURTH, 4, 0x3eea4538, 0x9853657);
    NextAt(0x297c48e0, FOURTH, 5, 0x9853657, 0x2e07d307);
    NextAt(0x297c48e0, FOURTH, 6, 0x2e07d307, 0x2975c268);
    NextAt(0x297c48e0, FOURTH, 7, 0x2975c268, 0x1a0d3656);
  }

  const LAST: seq<bv32> := [0, 0, 0, 0, 0, 0]

  lemma LastSteps()
    ensures Stepped(0x1a0d3656, 0) == 0x192fb755
    ensures Stepped(0x192fb755, 0) == 0x615c087
    ensures Stepped(0x615c087, 0) == 0x1f82c93f
    ensures Stepped(0x1f82c93f, 0) == 0xe80d418
    ensures Stepped(0xe80d418, 0) == 0x13814325
    ensures Stepped(0x13814325, 0) == 0x360000cf
  {
  }

  lemma LastRuns()
    ensures Run(0x1a0d3656, LAST) == 0x360000cf
  {
    hide Stepped, Run;
    LastSteps();
    NothingRun(0x1a0d3656, LAST);
    NextAt(0x1a0d3656, LAST, 0, 0x1a0d3656, 0x192fb755);
    NextAt(0x1a0d3656, LAST, 1, 0x192fb755, 0x615c087);
    NextAt(0x1a0d3656, LAST, 2, 0x615c087, 0x1f82c93f);
    NextAt(0x1a0d3656, LAST, 3, 0x1f82c93f, 0xe80d418);
    NextAt(0x1a0d3656, LAST, 4, 0xe80d418, 0x13814325);
    NextAt(0x1a0d3656, LAST, 5, 0x13814325, 0x360000cf);
  }

  /** The symbols 0 to n - 1. */
  function Counting(n: nat): (s: seq<symbol>)
    requires n <= 32
    ensures |s| == n
  {
    seq(n, i requires 0 <= i < n => i)
  }

  lemma WidenIs(s: seq<symbol>, w: seq<bv32>)
    requires |s| == |w| && forall i | 0 <= i < |s| :: w[i] as nat == s[i]
    ensures Widen(s) == w
  {
    forall i | 0 <= i < |s| ensures s[i] as bv32 == w[i] {
      ThroughNat(w[i]);
    }
  }

  lemma FirstIs()
    ensures Widen([0, 1, 2, 3, 4, 5, 6, 7]) == FIRST
  {
    hide Widen;
    WidenIs([0, 1, 2, 3, 4, 5, 6, 7], FIRST);
  }

  lemma SecondIs()
    ensures Widen([8, 9, 10, 11, 12, 13, 14, 15]) == SECOND
  {
    hide Widen;
    WidenIs([8, 9, 10, 11, 12, 13, 14, 15], SECOND);
  }

  lemma ThirdIs()
    ensures Widen([16, 17, 18, 19, 20, 21, 22, 23]) == THIRD
  {
    hide Widen;
    WidenIs([16, 17, 18, 19, 20, 21, 22, 23], THIRD);
  }

  lemma FourthIs()
    ensures Widen([24, 25, 26, 27, 28, 29, 30, 31]) == FOURTH
  {
    hide Widen;
    WidenIs([24, 25, 26, 27, 28, 29, 30, 31], FOURTH);
  }

  lemma SpelledOut()
    ensures FIRST + SECOND + THIRD + FOURTH == Widen(Counting(32)) && LAST == ZEROS
  {
    hide Widen;
    FirstIs();
    SecondIs();
    ThirdIs();
    FourthIs();
    var a, b, c, d := [0, 1, 2, 3, 4, 5, 6, 7], [8, 9, 10, 11, 12, 13, 14, 15], [16, 17, 18, 19, 20, 21, 22, 23],
      [24, 25, 26, 27, 28, 29, 30, 31];
    assert Counting(32) == a + b + c + d;
    WidenAppends(a, b);
    WidenAppends(a + b, c);
    WidenAppends(a + b + c, d);
  }

  lemma WidenAppends(a: seq<symbol>, b: seq<symbol>)
    ensures Widen(a + b) == Widen(a) + Widen(b)
  {
    var all, apart := Widen(a + b), Widen(a) + Widen(b);
    forall i | 0 <= i < |a| + |b| ensures all[i] == apart[i] {
      assert (a + b)[i] == if i < |a| then a[i] else b[i - |a|];
    }
  }

  /** The two halves of the expanded prefix as symbols. */
  lemma ExpandIs(hrp: Ascii, high: seq<symbol>, low: seq<symbol>)
    requires |high| == |low| == |hrp|
    requires forall i | 0 <= i < |hrp| :: high[i] == hrp[i] as int / 32 && low[i] == hrp[i] as int % 32
    ensures Expand(hrp) == Widen(high) + [0] + Widen(low)
  {
  }

  lemma PrefixExpands()
    ensures Expand("abcdef") == HIGH + LOW
  {
    hide Widen, Expand;
    ExpandIs("abcdef", [3, 3, 3, 3, 3, 3], [1, 2, 3, 4, 5, 6]);
    WidenIs([3, 3, 3, 3, 3, 3], HIGH[..6]);
    WidenIs([1, 2, 3, 4, 5, 6], LOW);
    assert HIGH == HIGH[..6] + [0];
  }

  lemma LetterExpands()
    ensures Expand("a") == [3, 0, 1]
  {
    hide Widen, Expand;
    ExpandIs("a", [3], [1]);
    WidenIs([3], EMPTY[..1]);
    WidenIs([1], EMPTY[2..3]);
  }

  /** The polymod over the chunks one after another. */
  lemma PolymodOfLetters()
    ensures Run(1, HIGH + LOW + FIRST + SECOND + THIRD + FOURTH + LAST) == 0x360000cf
  {
    hide Run;
    HighRuns();
    LowRuns();
    FirstRuns();
    SecondRuns();
    ThirdRuns();
    FourthRuns();
    LastRuns();
    RunConcat(1, HIGH, LOW);
    RunConcat(1, HIGH + LOW, FIRST);
    RunConcat(1, HIGH + LOW + FIRST, SECOND);
    RunConcat(1, HIGH + LOW + FIRST + SECOND, THIRD);
    RunConcat(1, HIGH + LOW + FIRST + SECOND + THIRD, FOURTH);
    RunConcat(1, HIGH + LOW + FIRST + SECOND + THIRD + FOURTH, LAST);
  }

  // ---- The strings ---------------------------------------------------------------------------

  /** The string a12uel5l of BIP-173. */
  lemma EncodesEmpty()
    ensures Encode("a", []) == "a12uel5l"
  {
    hide Run, Symbols, Expand;
    LetterExpands();
    EmptyRuns();
    var values := Expand("a") + Widen([]);
    assert ToSymbols([]) == [];
    assert values + ZEROS == EMPTY;
    EmptyChecksum();
    assert ChecksumSymbols("a", []) == [10, 28, 25, 31, 20, 31];
    assert Spell([10, 28, 25, 31, 20, 31]) == "2uel5l";
    assert [] + ChecksumSymbols("a", []) == ChecksumSymbols("a", []);
  }

  lemma EmptyChecksum()
    ensures Narrow(Symbols(Xor(0x15ccfe9e, 1))) == [10, 28, 25, 31, 20, 31]
  {
    SymbolsOfEmpty();
    SmallSymbols([10, 28, 25, 31, 20, 31], [10, 28, 25, 31, 20, 31]);
  }

  lemma SymbolsOfEmpty()
    ensures Symbols(Xor(0x15ccfe9e, 1)) == [10, 28, 25, 31, 20, 31]
  {
  }

  lemma SmallSymbols(s: seq<bv32>, n: seq<symbol>)
    requires |s| == |n| && forall i | 0 <= i < |s| :: s[i] < 32 && s[i] as nat == n[i]
    ensures Narrow(s) == n
  {
    forall i | 0 <= i < |s| ensures s[i] & 31 == s[i] {
      FiveBits(s[i]);
    }
  }

  lemma FiveBits(x: bv32)
    requires x < 32
    ensures x & 31 == x
  {
  }

  lemma LettersChecksum()
    ensures Narrow(Symbols(Xor(0x360000cf, 1))) == [27, 0, 0, 0, 6, 14]
  {
    SymbolsOfLetters();
    SmallSymbols([27, 0, 0, 0, 6, 14], [27, 0, 0, 0, 6, 14]);
  }

  lemma SymbolsOfLetters()
    ensures Symbols(Xor(0x360000cf, 1)) == [27, 0, 0, 0, 6, 14]
  {
  }

  /** The bytes whose bits are those of the symbols 0 to 31. */
  const DATA: Bytes := [
    0x00, 0x44, 0x32, 0x14, 0xc7, 0x42, 0x54, 0xb6, 0x35, 0xcf,
    0x84, 0x65, 0x3a, 0x56, 0xd7, 0xc6, 0x75, 0xbe, 0x77, 0xdf]

  lemma CountsTo8()
    ensures Base32(Counting(8)) == 0x443214c7
  {
    hide Base32, Counting;
    NoneCounted();
    OneCounted(0, 0x0);
    OneCounted(1, 0x0);
    OneCounted(2, 0x1);
    OneCounted(3, 0x22);
    OneCounted(4, 0x443);
    OneCounted(5, 0x8864);
    OneCounted(6, 0x110c85);
    OneCounted(7, 0x22190a6);
  }

  lemma CountsTo16()
    ensures Base32(Counting(16)) == 0x443214c74254b635cf
  {
    hide Base32, Counting;
    CountsTo8();
    OneCounted(8, 0x443214c7);
    OneCounted(9, 0x8864298e8);
    OneCounted(10, 0x110c8531d09);
    OneCounted(11, 0x22190a63a12a);
    OneCounted(12, 0x443214c74254b);
    OneCounted(13, 0x8864298e84a96c);
    OneCounted(14, 0x110c8531d0952d8d);
    OneCounted(15, 0x22190a63a12a5b1ae);
  }

  lemma CountsTo24()
    ensures Base32(Counting(24)) == 0x443214c74254b635cf84653a56d7
  {
    hide Base32, Counting;
    CountsTo16();
    OneCounted(16, 0x443214c74254b635cf);
    OneCounted(17, 0x8864298e84a96c6b9f0);
    OneCounted(18, 0x110c8531d0952d8d73e11);
    OneCounted(19, 0x22190a63a12a5b1ae7c232);
    OneCounted(20, 0x443214c74254b635cf84653);
    OneCounted(21, 0x8864298e84a96c6b9f08ca74);
    OneCounted(22, 0x110c8531d0952d8d73e1194e95);
    OneCounted(23, 0x22190a63a12a5b1ae7c2329d2b6);
  }

  lemma CountsTo32()
    ensures Base32(Counting(32)) == 0x443214c74254b635cf84653a56d7c675be77df
  {
    hide Base32, Counting;
    CountsTo24();
    OneCounted(24, 0x443214c74254b635cf84653a56d7);
    OneCounted(25, 0x8864298e84a96c6b9f08ca74adaf8);
    OneCounted(26, 0x110c8531d0952d8d73e1194e95b5f19);
    OneCounted(27, 0x22190a63a12a5b1ae7c2329d2b6be33a);
    OneCounted(28, 0x443214c74254b635cf84653a56d7c675b);
    OneCounted(29, 0x8864298e84a96c6b9f08ca74adaf8ceb7c);
    OneCounted(30, 0x110c8531d0952d8d73e1194e95b5f19d6f9d);
    OneCounted(31, 0x22190a63a12a5b1ae7c2329d2b6be33adf3be);
  }

  lemma NoneCounted()
    ensures Base32(Counting(0)) == 0
  {
  }

  lemma OneCounted(n: nat, v: nat)
    requires n < 32 && Base32(Counting(n)) == v
    ensures Base32(Counting(n + 1)) == v * 32 + n
  {
    assert Counting(n + 1) == Counting(n) + [n];
    Base32Snoc(Counting(n), n);
  }

  lemma BytesTo10()
    ensures BigEndian(DATA[..10]) == 0x443214c74254b635cf
  {
    hide BigEndian;
    NoBytes();
    OneByte(0, 0x0);
    OneByte(1, 0x0);
    OneByte(2, 0x44);
    OneByte(3, 0x4432);
    OneByte(4, 0x443214);
    OneByte(5, 0x443214c7);
    OneByte(6, 0x443214c742);
    OneByte(7, 0x443214c74254);
    OneByte(8, 0x443214c74254b6);
    OneByte(9, 0x443214c74254b635);
  }

  lemma BytesTo20()
    ensures BigEndian(DATA[..20]) == 0x443214c74254b635cf84653a56d7c675be77df
  {
    hide BigEndian;
    BytesTo10();
    OneByte(10, 0x443214c74254b635cf);
    OneByte(11, 0x443214c74254b635cf84);
    OneByte(12, 0x443214c74254b635cf8465);
    OneByte(13, 0x443214c74254b635cf84653a);
    OneByte(14, 0x443214c74254b635cf84653a56);
    OneByte(15, 0x443214c74254b635cf84653a56d7);
    OneByte(16, 0x443214c74254b635cf84653a56d7c6);
    OneByte(17, 0x443214c74254b635cf84653a56d7c675);
    OneByte(18, 0x443214c74254b635cf84653a56d7c675be);
    OneByte(19, 0x443214c74254b635cf84653a56d7c675be77);
  }

  lemma NoBytes()
    ensures BigEndian(DATA[..0]) == 0
  {
  }

  lemma OneByte(n: nat, v: nat)
    requires n < 20 && BigEndian(DATA[..n]) == v
    ensures BigEndian(DATA[..n + 1]) == v * 256 + DATA[n]
  {
    assert DATA[..n + 1][..n] == DATA[..n];
  }

  lemma LettersRegroup()
    ensures ToSymbols(DATA) == Counting(32)
  {
    hide BigEndian, Base32, ToBase32, Counting;
    CountsTo32();
    BytesTo20();
    assert DATA[..20] == DATA;
    assert Padding(20) == 0 && Pow2(0) == 1;
    ToBase32Inverts(Counting(32));
  }

  lemma Chunks(a: seq<bv32>, b: seq<bv32>, c: seq<bv32>, d: seq<bv32>, e: seq<bv32>, f: seq<bv32>, g: seq<bv32>)
    ensures (a + b) + (c + d + e + f) + g == a + b + c + d + e + f + g
  {
  }

  lemma LettersChecksumSymbols()
    ensures ChecksumSymbols("abcdef", Counting(32)) == [27, 0, 0, 0, 6, 14]
  {
    hide Run, Symbols, Expand, Widen, Narrow, Counting, Xor;
    PrefixExpands();
    SpelledOut();
    PolymodOfLetters();
    LettersChecksum();
    Chunks(HIGH, LOW, FIRST, SECOND, THIRD, FOURTH, LAST);
  }

  /** The string of BIP-173 that holds every symbol once, in order. */
  lemma EncodesLetters()
    ensures Encode("abcdef", DATA) == "abcdef1qpzry9x8gf2tvdw0s3jn54khce6mua7lmqqqxw"
  {
    hide ToSymbols, Spell, ChecksumSymbols, Counting;
    LettersRegroup();
    LettersChecksumSymbols();
    SpellsLetters();
  }

  lemma SpellsLetters()
    ensures Spell(Counting(32) + [27, 0, 0, 0, 6, 14]) == "qpzry9x8gf2tvdw0s3jn54khce6mua7lmqqqxw"
  {
    var s := Spell(Counting(32) + [27, 0, 0, 0, 6, 14]);
    assert s == CHARSET + "mqqqxw";
  }
}
