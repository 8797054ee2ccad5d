/** The Bech32 checksum (BIP-173, section "Bech32", Checksum): the polymod loop is linear over GF(2),
    so the six symbols computed from six zeros make the whole string check. */
module Bech32Checksum {

  /** `^` on u32. */
  function Xor(a: bv32, b: bv32): bv32 {
    a ^ b
  }

  const GEN: seq<bv32> := [0x3b6a57b2, 0x26508e6d, 0x1ea119fa, 0x3d4233dd, 0x2a1462b3]

  /** Bit i of the five bits shifted out. */
  predicate Bit(top: bv32, i: nat)
    requires i < 5
  {
    if i == 0 then top & 1 == 1
    else if i == 1 then (top >> 1) & 1 == 1
    else if i == 2 then (top >> 2) & 1 == 1
    else if i == 3 then (top >> 3) & 1 == 1
    else (top >> 4) & 1 == 1
  }

  function Term(bit: bool, g: bv32): bv32 {
    if bit then g else 0
  }

  /** The inner loop: fold in a generator for each bit that was set. */
  function Feed(chk: bv32, top: bv32, n: nat): bv32
    requires n <= 5
  {
    if n == 0 then chk else Xor(Feed(chk, top, n - 1), Term(Bit(top, n - 1), GEN[n - 1]))
  }

  function Low(chk: bv32): bv32 {
    (chk & 0x1ffffff) << 5
  }

  function High(chk: bv32): bv32 {
    chk >> 25
  }

  function Step(chk: bv32, v: bv32): bv32 {
    Feed(Xor(Low(chk), v), High(chk), 5)
  }

  /** The outer loop from a given state. */
  function Run(chk: bv32, values: seq<bv32>): bv32 {
    if values == [] then chk else Step(Run(chk, values[..|values| - 1]), values[|values| - 1])
  }

  /** `polymod` as the source writes it. */
  method Polymod(values: seq<bv32>) returns (chk: bv32)
    ensures chk == Run(1, values)
  {
    hide Xor, Low, High, Bit, Term;
    chk := 1;
    for k := 0 to |values|
      invariant chk == Run(1, values[..k])
    {
      ghost var before := chk;
      var b := High(chk);
      chk := Xor(Low(chk), values[k]);
      ghost var start := chk;
      for i := 0 to 5
        invariant chk == Feed(start, b, i)
      {
        if Bit(b, i) {
          chk := Xor(chk, GEN[i]);
        }
        FeedSkips(start, b, i);
      }
      assert values[..k + 1][..k] == values[..k];
    }
    assert values[..|values|] == values;
  }

  /** A generator whose bit is clear is not folded in. */
  lemma FeedSkips(chk: bv32, top: bv32, i: nat)
    requires i < 5
    ensures Feed(chk, top, i + 1) == if Bit(top, i) then Xor(Feed(chk, top, i), GEN[i]) else Feed(chk, top, i)
  {
    hide Xor, Bit;
    Unit(Feed(chk, top, i));
  }

  // ---- Linearity -----------------------------------------------------------------------------

  lemma Unit(a: bv32)
    ensures Xor(a, 0) == a && Xor(0, a) == a && Xor(a, a) == 0
  {
  }

  lemma Associative(a: bv32, b: bv32, c: bv32)
    ensures Xor(Xor(a, b), c) == Xor(a, Xor(b, c))
  {
  }

  lemma Commutative(a: bv32, b: bv32)
    ensures Xor(a, b) == Xor(b, a)
  {
  }

  lemma Exchange(a: bv32, b: bv32, c: bv32, d: bv32)
    ensures Xor(Xor(a, b), Xor(c, d)) == Xor(Xor(a, c), Xor(b, d))
  {
    hide Xor;
    Associative(a, b, Xor(c, d));
    Associative(b, c, d);
    Commutative(b, c);
    Associative(c, b, d);
    Associative(a, c, Xor(b, d));
  }

  lemma TermLinear(p: bool, q: bool, g: bv32)
    ensures Term(p != q, g) == Xor(Term(p, g), Term(q, g))
  {
    hide Xor;
    Unit(g);
    Unit(0);
  }

  lemma BitLinear(a: bv32, b: bv32, i: nat)
    requires i < 5
    ensures Bit(Xor(a, b), i) == (Bit(a, i) != Bit(b, i))
  {
  }

  lemma ShiftLinear(a: bv32, b: bv32)
    ensures Low(Xor(a, b)) == Xor(Low(a), Low(b)) && High(Xor(a, b)) == Xor(High(a), High(b))
  {
  }

  lemma {:induction false} FeedLinear(chk: bv32, chk': bv32, a: bv32, b: bv32, n: nat)
    requires n <= 5
    ensures Feed(Xor(chk, chk'), Xor(a, b), n) == Xor(Feed(chk, a, n), Feed(chk', b, n))
  {
    hide Xor, Term, Bit;
    if n > 0 {
      var i := n - 1;
      FeedLinear(chk, chk', a, b, i);
      BitLinear(a, b, i);
      TermLinear(Bit(a, i), Bit(b, i), GEN[i]);
      Exchange(Feed(chk, a, i), Feed(chk', b, i), Term(Bit(a, i), GEN[i]), Term(Bit(b, i), GEN[i]));
    }
  }

  lemma StepLinear(a: bv32, b: bv32, v: bv32, w: bv32)
    ensures Step(Xor(a, b), Xor(v, w)) == Xor(Step(a, v), Step(b, w))
  {
    hide Xor, Feed, Low, High;
    ShiftLinear(a, b);
    Exchange(Low(a), Low(b), v, w);
    FeedLinear(Xor(Low(a), v), Xor(Low(b), w), High(a), High(b), 5);
  }

  /** Running the sum of two inputs from the sum of two states sums the results. */
  lemma {:induction false} RunLinear(a: bv32, b: bv32, v: seq<bv32>, w: seq<bv32>, u: seq<bv32>)
    requires |v| == |w| == |u| && forall i | 0 <= i < |v| :: u[i] == Xor(v[i], w[i])
    ensures Run(Xor(a, b), u) == Xor(Run(a, v), Run(b, w))
  {
    hide Xor, Step;
    if u != [] {
      var n := |u| - 1;
      RunLinear(a, b, v[..n], w[..n], u[..n]);
      StepLinear(Run(a, v[..n]), Run(b, w[..n]), v[n], w[n]);
    }
  }

  lemma {:induction false} RunConcat(chk: bv32, v: seq<bv32>, w: seq<bv32>)
    ensures Run(chk, v + w) == Run(Run(chk, v), w)
  {
    hide Step;
    if w == [] {
      assert v + w == v;
    } else {
      var n := |w| - 1;
      RunConcat(chk, v, w[..n]);
      assert (v + w)[..|v + w| - 1] == v + w[..n];
    }
  }

  // ---- The checksum symbols ------------------------------------------------------------------

  const ZEROS: seq<bv32> := [0, 0, 0, 0, 0, 0]

  /** The six 5-bit groups of a checksum, most significant first. */
  function Symbols(chk: bv32): (s: seq<bv32>)
    ensures |s| == 6
  {
    [(chk >> 25) & 31, (chk >> 20) & 31, (chk >> 15) & 31, (chk >> 10) & 31, (chk >> 5) & 31, chk & 31]
  }

  lemma {:induction false} FeedNothing(chk: bv32, n: nat)
    requires n <= 5
    ensures Feed(chk, 0, n) == chk
  {
    hide Xor;
    if n > 0 {
      FeedNothing(chk, n - 1);
      NoBits(n - 1);
      Unit(chk);
    }
  }

  lemma NoBits(i: nat)
    requires i < 5
    ensures !Bit(0, i)
  {
  }

  /** As long as nothing is shifted out, a step only appends five bits. */
  lemma StepAppends(chk: bv32, v: bv32)
    requires chk < 0x2000000
    ensures Step(chk, v) == (chk << 5) ^ v
  {
    hide Feed, High, Low, Xor;
    NothingOnTop(chk);
    FeedNothing(Xor(Low(chk), v), 5);
    XorIs(chk << 5, v);
  }

  lemma NothingOnTop(chk: bv32)
    requires chk < 0x2000000
    ensures High(chk) == 0 && Low(chk) == chk << 5
  {
  }

  lemma XorIs(a: bv32, b: bv32)
    ensures Xor(a, b) == a ^ b
  {
  }

  predicate Appended(before: bv32, group: bv32, after: bv32) {
    before < 0x2000000 && after == (before << 5) ^ group
  }

  lemma RunAppends(values: seq<bv32>, before: bv32, group: bv32, after: bv32)
    requires Run(0, values) == before && Appended(before, group, after)
    ensures Run(0, values + [group]) == after
  {
    hide Step;
    assert (values + [group])[..|values|] == values;
    StepAppends(before, group);
  }

  lemma SixAppends(s: seq<bv32>, c1: bv32, c2: bv32, c3: bv32, c4: bv32, c5: bv32, c6: bv32)
    requires |s| == 6
    requires Appended(0, s[0], c1) && Appended(c1, s[1], c2) && Appended(c2, s[2], c3)
    requires Appended(c3, s[3], c4) && Appended(c4, s[4], c5) && Appended(c5, s[5], c6)
    ensures Run(0, s) == c6
  {
    hide Step, Appended, Run;
    assert s == [] + [s[0]] + [s[1]] + [s[2]] + [s[3]] + [s[4]] + [s[5]];
    NoSymbols();
    ThreeAppends([], 0, s[0], s[1], s[2], c1, c2, c3);
    ThreeAppends([] + [s[0]] + [s[1]] + [s[2]], c3, s[3], s[4], s[5], c4, c5, c6);
  }

  lemma NoSymbols()
    ensures Run(0, []) == 0
  {
  }

  lemma ThreeAppends(values: seq<bv32>, c: bv32, g1: bv32, g2: bv32, g3: bv32, c1: bv32, c2: bv32, c3: bv32)
    requires Run(0, values) == c
    requires Appended(c, g1, c1) && Appended(c1, g2, c2) && Appended(c2, g3, c3)
    ensures Run(0, values + [g1] + [g2] + [g3]) == c3
  {
    hide Step, Appended, Run;
    RunAppends(values, c, g1, c1);
    RunAppends(values + [g1], c1, g2, c2);
    RunAppends(values + [g1] + [g2], c2, g3, c3);
  }

  lemma Groups(chk: bv32)
    requires chk < 0x40000000
    ensures Appended(0, (chk >> 25) & 31, chk >> 25)
    ensures Appended(chk >> 25, (chk >> 20) & 31, chk >> 20)
    ensures Appended(chk >> 20, (chk >> 15) & 31, chk >> 15)
    ensures Appended(chk >> 15, (chk >> 10) & 31, chk >> 10)
    ensures Appended(chk >> 10, (chk >> 5) & 31, chk >> 5)
    ensures Appended(chk >> 5, chk & 31, chk)
  {
  }

  /** From the zero state, the six groups of a checksum rebuild it. */
  lemma RunSymbols(chk: bv32)
    requires chk < 0x40000000
    ensures Run(0, Symbols(chk)) == chk
  {
    hide Run, Appended;
    Groups(chk);
    SixAppends(Symbols(chk), chk >> 25, chk >> 20, chk >> 15, chk >> 10, chk >> 5, chk);
  }

  lemma XorSmall(a: bv32, b: bv32)
    requires a < 0x40000000 && b < 0x40000000
    ensures Xor(a, b) < 0x40000000
  {
  }

  lemma {:induction false} FeedSmall(chk: bv32, top: bv32, n: nat)
    requires n <= 5 && chk < 0x40000000
    ensures Feed(chk, top, n) < 0x40000000
  {
    hide Xor, Bit;
    if n > 0 {
      FeedSmall(chk, top, n - 1);
      assert GEN[n - 1] < 0x40000000;
      XorSmall(Feed(chk, top, n - 1), Term(Bit(top, n - 1), GEN[n - 1]));
    }
  }

  /** The register stays within 30 bits while zeros are shifted in. */
  lemma ZeroStepSmall(chk: bv32)
    ensures Step(chk, 0) < 0x40000000
  {
    hide Feed, Xor;
    Unit(Low(chk));
    FeedSmall(Low(chk), High(chk), 5);
  }

  /** The checksum of a value sequence: six zeros shifted in, then xor with 1. */
  function Checksum(values: seq<bv32>): bv32 {
    Xor(Run(1, values + ZEROS), 1)
  }

  lemma ChecksumSmall(values: seq<bv32>)
    ensures Run(1, values + ZEROS) < 0x40000000 && Checksum(values) < 0x40000000
  {
    hide Step, Xor;
    var all := values + ZEROS;
    ZeroStepSmall(Run(1, all[..|all| - 1]));
    XorSmall(Run(1, all), 1);
  }

  /** Appending the checksum symbols makes the polymod of the whole sequence 1. */
  lemma ChecksumChecks(values: seq<bv32>)
    ensures Run(1, values + Symbols(Checksum(values))) == 1
  {
    hide Step, Run, Xor, Symbols;
    var s, c := Run(1, values), Run(1, values + ZEROS);
    var w := Symbols(Checksum(values));
    ChecksumSmall(values);
    RunConcat(1, values, ZEROS);
    RunConcat(1, values, w);
    RunSymbols(Checksum(values));
    OverZeros(s, w);
    Unit(c);
    Unit(1);
    Associative(c, c, 1);
  }

  /** Feeding symbols from any state adds what they make of the zero state to what zeros make of that state. */
  lemma OverZeros(s: bv32, w: seq<bv32>)
    requires |w| == 6
    ensures Run(s, w) == Xor(Run(s, ZEROS), Run(0, w))
  {
    hide Run, Xor;
    forall i | 0 <= i < 6 ensures w[i] == Xor(ZEROS[i], w[i]) {
      Unit(w[i]);
    }
    Unit(s);
    RunLinear(s, 0, ZEROS, w, w);
  }
}
