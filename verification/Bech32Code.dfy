/** The Bech32 checksum as the code of BIP-173, section "Checksum design": over the field GF(32), the polymod of a value
    sequence is the remainder of its polynomial modulo the generator polynomial. */
module Bech32Code {
  import opened Bech32
  import opened Bech32Checksum
  import opened Cbor

  // ---- The field GF(32) ----------------------------------------------------------------------

  /** Multiplication by alpha, where alpha^5 = alpha^3 + 1. */
  function Alpha(x: bv32): bv32 {
    if x & 16 == 0 then (x << 1) & 31 else ((x << 1) & 31) ^ 9
  }

  function AlphaTimes(x: bv32, n: nat): bv32 {
    if n == 0 then x else Alpha(AlphaTimes(x, n - 1))
  }

  /** The product of field elements: the sum of alpha^i y over the bits i set in x, of the first n bits. */
  function Partial(x: bv32, y: bv32, n: nat): bv32
    requires n <= 5
  {
    if n == 0 then 0 else Xor(Partial(x, y, n - 1), Term(Bit(x, n - 1), AlphaTimes(y, n - 1)))
  }

  function Mul(x: bv32, y: bv32): bv32 {
    Partial(x, y, 5)
  }

  // ---- Polynomials, most significant coefficient first ---------------------------------------

  /** x^6 + 29 x^5 + 22 x^4 + 20 x^3 + 21 x^2 + 29 x + 18, without its leading one. */
  const GENERATOR: seq<bv32> := [29, 22, 20, 21, 29, 18]

  function Add(p: seq<bv32>, q: seq<bv32>): (r: seq<bv32>)
    requires |p| == |q|
    ensures |r| == |p|
  {
    seq(|p|, i requires 0 <= i < |p| => Xor(p[i], q[i]))
  }

  function Nothing(n: nat): (r: seq<bv32>)
    ensures |r| == n
  {
    seq(n, _ => 0)
  }

  /** c times the generator polynomial. */
  function Scaled(c: bv32): (r: seq<bv32>)
    ensures |r| == 7
  {
    [c] + seq(6, i requires 0 <= i < 6 => Mul(c, GENERATOR[i]))
  }

  /** The product of a polynomial and the generator: shift for each further coefficient, add its multiple. */
  function TimesGenerator(q: seq<bv32>): (r: seq<bv32>)
    ensures |r| == |q| + 6
  {
    if q == [] then Nothing(6) else
      var n := |q| - 1;
      Add(TimesGenerator(q[..n]) + [0], Nothing(n) + Scaled(q[n]))
  }

  // ---- The generators of the source are the multiples of this polynomial ---------------------

  function Lowest(x: bv32): bv32 { x & 31 }

  /** The register without its groups after the i-th, from the top. */
  function Down(chk: bv32, i: nat): bv32
    requires i < 6
  {
    if i == 0 then chk >> 25
    else if i == 1 then chk >> 20
    else if i == 2 then chk >> 15
    else if i == 3 then chk >> 10
    else if i == 4 then chk >> 5
    else chk
  }

  function Group(chk: bv32, i: nat): bv32
    requires i < 6
  {
    Lowest(Down(chk, i))
  }

  lemma SymbolsAre(chk: bv32)
    ensures Symbols(chk) == [Group(chk, 0), Group(chk, 1), Group(chk, 2), Group(chk, 3), Group(chk, 4), Group(chk, 5)]
  {
  }

  lemma Group25(a: bv32, b: bv32)
    ensures Lowest(Xor(a, b) >> 25) == Xor(Lowest(a >> 25), Lowest(b >> 25))
  {
  }

  lemma Group20(a: bv32, b: bv32)
    ensures Lowest(Xor(a, b) >> 20) == Xor(Lowest(a >> 20), Lowest(b >> 20))
  {
  }

  lemma Group15(a: bv32, b: bv32)
    ensures Lowest(Xor(a, b) >> 15) == Xor(Lowest(a >> 15), Lowest(b >> 15))
  {
  }

  lemma Group10(a: bv32, b: bv32)
    ensures Lowest(Xor(a, b) >> 10) == Xor(Lowest(a >> 10), Lowest(b >> 10))
  {
  }

  lemma Group5(a: bv32, b: bv32)
    ensures Lowest(Xor(a, b) >> 5) == Xor(Lowest(a >> 5), Lowest(b >> 5))
  {
  }

  lemma Group0(a: bv32, b: bv32)
    ensures Lowest(Xor(a, b)) == Xor(Lowest(a), Lowest(b))
  {
  }

  lemma GroupXor(a: bv32, b: bv32, i: nat)
    requires i < 6
    ensures Group(Xor(a, b), i) == Xor(Group(a, i), Group(b, i))
  {
    hide Xor, Lowest;
    if i == 0 {
      Group25(a, b);
    } else if i == 1 {
      Group20(a, b);
    } else if i == 2 {
      Group15(a, b);
    } else if i == 3 {
      Group10(a, b);
    } else if i == 4 {
      Group5(a, b);
    } else {
      Group0(a, b);
    }
  }

  lemma SymbolsXor(a: bv32, b: bv32)
    ensures Symbols(Xor(a, b)) == Add(Symbols(a), Symbols(b))
  {
    hide Xor, Symbols, Group;
    SymbolsAre(a);
    SymbolsAre(b);
    SymbolsAre(Xor(a, b));
    forall i | 0 <= i < 6 ensures Group(Xor(a, b), i) == Xor(Group(a, i), Group(b, i)) {
      GroupXor(a, b, i);
    }
  }

  lemma NoSymbolsOfZero(i: nat)
    requires i < 6
    ensures Symbols(0)[i] == 0
  {
  }

  /** Generator m is alpha^m times the polynomial. */
  lemma GeneratorsAre(m: nat, i: nat)
    requires m < 5 && i < 6
    ensures Symbols(GEN[m])[i] == AlphaTimes(GENERATOR[i], m)
  {
    hide Symbols;
    Powers(GENERATOR[i]);
    FirstTwo();
    LastThree();
  }

  lemma Powers(x: bv32)
    ensures AlphaTimes(x, 0) == x && AlphaTimes(x, 1) == Alpha(x) && AlphaTimes(x, 2) == Alpha(Alpha(x))
    ensures AlphaTimes(x, 3) == Alpha(Alpha(Alpha(x))) && AlphaTimes(x, 4) == Alpha(Alpha(Alpha(Alpha(x))))
  {
    hide Alpha;
    assert AlphaTimes(x, 1) == Alpha(AlphaTimes(x, 0));
    assert AlphaTimes(x, 2) == Alpha(AlphaTimes(x, 1));
    assert AlphaTimes(x, 3) == Alpha(AlphaTimes(x, 2));
    assert AlphaTimes(x, 4) == Alpha(AlphaTimes(x, 3));
  }

  lemma FirstTwo()
    ensures Symbols(GEN[0]) == [29, 22, 20, 21, 29, 18]
    ensures Symbols(GEN[1]) == [19, 5, 1, 3, 19, 13]
  {
  }

  lemma LastThree()
    ensures Symbols(GEN[2]) == [15, 10, 2, 6, 15, 26]
    ensures Symbols(GEN[3]) == [30, 20, 4, 12, 30, 29]
    ensures Symbols(GEN[4]) == [21, 1, 8, 24, 21, 19]
  {
  }

  // ---- One step of the register --------------------------------------------------------------

  lemma SymbolsTerm(bit: bool, m: nat, i: nat)
    requires m < 5 && i < 6
    ensures Symbols(Term(bit, GEN[m]))[i] == Term(bit, AlphaTimes(GENERATOR[i], m))
  {
    hide Symbols, AlphaTimes;
    GeneratorsAre(m, i);
    NoSymbolsOfZero(i);
  }

  /** Folding in the generators of the bits of `top` adds top times the polynomial. */
  lemma {:induction false} FeedAdds(chk: bv32, top: bv32, n: nat, i: nat)
    requires n <= 5 && i < 6
    ensures Symbols(Feed(chk, top, n))[i] == Xor(Symbols(chk)[i], Partial(top, GENERATOR[i], n))
  {
    hide Symbols, Xor, Term, Bit, AlphaTimes;
    if n == 0 {
      Unit(Symbols(chk)[i]);
    } else {
      var m := n - 1;
      FeedAdds(chk, top, m, i);
      SymbolsXor(Feed(chk, top, m), Term(Bit(top, m), GEN[m]));
      SymbolsTerm(Bit(top, m), m, i);
      Associative(Symbols(chk)[i], Partial(top, GENERATOR[i], m), Term(Bit(top, m), AlphaTimes(GENERATOR[i], m)));
    }
  }

  /** Shifting in a value moves the groups up by one. */
  lemma ShiftsGroups(chk: bv32, v: bv32)
    requires chk < 0x40000000 && v < 32
    ensures Symbols(Xor(Low(chk), v)) == Symbols(chk)[1..] + [v] && High(chk) == Symbols(chk)[0]
  {
    hide Xor, Symbols, Group, Low, High;
    SymbolsAre(chk);
    SymbolsAre(Xor(Low(chk), v));
    TopIsHigh(chk);
    LastIsNew(chk, v);
    forall i | 0 <= i < 5 ensures Group(Xor(Low(chk), v), i) == Group(chk, i + 1) {
      MovesUp(chk, v, i);
    }
  }

  lemma TopIsHigh(chk: bv32)
    requires chk < 0x40000000
    ensures High(chk) == Group(chk, 0)
  {
  }

  lemma MovesUp(chk: bv32, v: bv32, i: nat)
    requires v < 32 && i < 5
    ensures Group(Xor(Low(chk), v), i) == Group(chk, i + 1)
  {
  }

  lemma LastIsNew(chk: bv32, v: bv32)
    requires v < 32
    ensures Group(Xor(Low(chk), v), 5) == v
  {
  }

  /** One step: multiply by x, add the value, reduce by the generator polynomial. */
  lemma StepReduces(chk: bv32, v: bv32)
    requires chk < 0x40000000 && v < 32
    ensures Step(chk, v) < 0x40000000
    ensures Symbols(Step(chk, v)) == Add(Symbols(chk)[1..] + [v], Scaled(Symbols(chk)[0])[1..])
  {
    hide Symbols, Xor, Feed, Low, High, Partial;
    ShiftsGroups(chk, v);
    ShiftedSmall(chk, v);
    FeedSmall(Xor(Low(chk), v), High(chk), 5);
    var after := Step(chk, v);
    forall i | 0 <= i < 6
      ensures Symbols(after)[i] == Xor((Symbols(chk)[1..] + [v])[i], Scaled(Symbols(chk)[0])[1..][i])
    {
      FeedAdds(Xor(Low(chk), v), High(chk), 5, i);
    }
  }

  lemma ShiftedSmall(chk: bv32, v: bv32)
    requires v < 32
    ensures Xor(Low(chk), v) < 0x40000000
  {
  }

  // ---- The remainder -------------------------------------------------------------------------

  /** The polynomial of a value sequence, with the leading one the source starts from. */
  function Message(values: seq<bv32>): (p: seq<bv32>)
    ensures |p| == |values| + 6
  {
    Nothing(5) + [1] + values
  }

  /** The polymod of a sequence of five-bit values is the remainder of their polynomial: that polynomial is a multiple
      of the generator polynomial plus the six groups of the polymod. */
  lemma {:induction false} RunIsRemainder(values: seq<bv32>) returns (quotient: seq<bv32>)
    requires forall i | 0 <= i < |values| :: values[i] < 32
    ensures |quotient| == |values| && Run(1, values) < 0x40000000
    ensures Message(values) == Add(TimesGenerator(quotient), Nothing(|values|) + Symbols(Run(1, values)))
  {
    hide Xor, Symbols, Step, Mul;
    if values == [] {
      quotient := [];
      OneIsItself();
    } else {
      var n := |values| - 1;
      var front, v := values[..n], values[n];
      var before := RunIsRemainder(front);
      var r := Symbols(Run(1, front));
      quotient := before + [r[0]];
      assert quotient[..n] == before;
      StepReduces(Run(1, front), v);
      assert Message(values) == Message(front) + [v];
      Reduces(Message(front), TimesGenerator(before), r, v, n);
    }
  }

  lemma OneIsItself()
    ensures Symbols(Run(1, [])) == [0, 0, 0, 0, 0, 1]
    ensures Message([]) == Add(TimesGenerator([]), Nothing(0) + Symbols(Run(1, [])))
  {
  }

  /** Long division by one more place. */
  lemma Reduces(p: seq<bv32>, product: seq<bv32>, r: seq<bv32>, v: bv32, n: nat)
    requires |p| == |product| == n + 6 && |r| == 6 && p == Add(product, Nothing(n) + r)
    ensures p + [v] == Add(Add(product + [0], Nothing(n) + Scaled(r[0])),
                           Nothing(n + 1) + Add(r[1..] + [v], Scaled(r[0])[1..]))
  {
    hide Xor, Mul;
    var scaled := Scaled(r[0]);
    var left := Add(product + [0], Nothing(n) + scaled);
    var right := Nothing(n + 1) + Add(r[1..] + [v], scaled[1..]);
    forall i | 0 <= i < n + 7 ensures (p + [v])[i] == Xor(left[i], right[i]) {
      if i < n {
        Unit(product[i]);
      } else if i == n {
        Unit(Xor(product[n], r[0]));
      } else if i < n + 6 {
        Cancels(product[i], scaled[i - n], r[i - n]);
      } else {
        Cancels(0, scaled[6], v);
        Unit(v);
      }
    }
  }

  lemma Cancels(a: bv32, b: bv32, c: bv32)
    ensures Xor(Xor(a, b), Xor(c, b)) == Xor(a, c)
  {
    hide Xor;
    Exchange(a, b, c, b);
    Unit(b);
    Unit(Xor(a, c));
  }

  // ---- Encoded strings -----------------------------------------------------------------------

  lemma SmallWide(n: nat)
    requires n < 32
    ensures n as bv32 < 32
  {
  }

  lemma SmallValues(hrp: Ascii, symbols: seq<symbol>)
    ensures var values := Expand(hrp) + Widen(symbols); forall i | 0 <= i < |values| :: values[i] < 32
  {
    var high := seq(|hrp|, i requires 0 <= i < |hrp| => (hrp[i] as int / 32) as bv32);
    var low := seq(|hrp|, i requires 0 <= i < |hrp| => (hrp[i] as int % 32) as bv32);
    forall i | 0 <= i < |hrp| ensures high[i] < 32 && low[i] < 32 {
      SmallWide(hrp[i] as int / 32);
      SmallWide(hrp[i] as int % 32);
    }
    var wide := Widen(symbols);
    forall i | 0 <= i < |symbols| ensures wide[i] < 32 {
      SmallWide(symbols[i]);
    }
    assert Expand(hrp) == high + [0] + low;
  }

  /** The values of every encoded string, checksum included, are a multiple of the generator polynomial plus one. */
  lemma EncodedIsCodeword(hrp: Ascii, data: Bytes) returns (quotient: seq<bv32>)
    ensures var values := Expand(hrp) + Widen(ToSymbols(data) + ChecksumSymbols(hrp, ToSymbols(data)));
            && |quotient| == |values|
            && Message(values) == Add(TimesGenerator(quotient), Nothing(|values|) + [0, 0, 0, 0, 0, 1])
  {
    hide Run, ToSymbols, ChecksumSymbols, Expand, Widen, Symbols, Xor;
    var data5 := ToSymbols(data);
    var values := Expand(hrp) + Widen(data5 + ChecksumSymbols(hrp, data5));
    SmallValues(hrp, data5 + ChecksumSymbols(hrp, data5));
    SymbolsCheck(hrp, data5);
    quotient := RunIsRemainder(values);
    SymbolsOfOne();
  }

  lemma SymbolsOfOne()
    ensures Symbols(1) == [0, 0, 0, 0, 0, 1]
  {
  }
}
