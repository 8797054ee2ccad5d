/** The textual keys the indexer builds: hex strings, `{}` and `{:0w}` renderings of integers, and
    the separators that join them. Every tree of the storage layer is addressed by such a key, so
    the proofs need to know that distinct keys never render alike. */
module Text {

  predicate IsHexDigit(c: char) {
    '0' <= c <= '9' || 'a' <= c <= 'f'
  }

  predicate IsHex(s: string) {
    forall i | 0 <= i < |s| :: IsHexDigit(s[i])
  }

  /** Byte strings in their `hex::encode` rendering. */
  type Hex = s: string | IsHex(s) witness ""

  predicate AllDigits(s: string) {
    forall i | 0 <= i < |s| :: '0' <= s[i] <= '9'
  }

  function Digit(n: nat): char
    requires n < 10
  {
    "0123456789"[n]
  }

  /** `format!("{}", n)` */
  function Decimal(n: nat): (s: string)
    ensures s != "" && AllDigits(s)
  {
    if n < 10 then [Digit(n)] else Decimal(n / 10) + [Digit(n % 10)]
  }

  function Zeros(w: nat): (s: string)
    ensures |s| == w && forall i | 0 <= i < w :: s[i] == '0'
  {
    seq(w, _ => '0')
  }

  /** `format!("{:0w$}", n)`: never truncates. */
  function Padded(w: nat, n: nat): (s: string)
    ensures AllDigits(s)
  {
    var d := Decimal(n);
    Zeros(if |d| >= w then 0 else w - |d|) + d
  }

  /** The number a digit string denotes. */
  function Value(s: string): nat
    requires AllDigits(s)
  {
    if s == "" then 0 else Value(s[..|s| - 1]) * 10 + (s[|s| - 1] as int - '0' as int)
  }

  function Pow10(w: nat): (p: nat)
    ensures p > 0
  {
    if w == 0 then 1 else 10 * Pow10(w - 1)
  }

  lemma DigitValue(n: nat)
    requires n < 10
    ensures Digit(n) as int - '0' as int == n
  {
    assert n in {0, 1, 2, 3, 4, 5, 6, 7, 8, 9};
  }

  lemma {:induction false} ValueDecimal(n: nat)
    ensures Value(Decimal(n)) == n
  {
    if n < 10 {
      DigitValue(n);
      assert Decimal(n)[..0] == "";
    } else {
      ValueDecimal(n / 10);
      DigitValue(n % 10);
      assert Decimal(n)[..|Decimal(n)| - 1] == Decimal(n / 10);
    }
  }

  lemma {:induction false} ValueAppend(s: string, c: char)
    requires AllDigits(s) && '0' <= c <= '9'
    ensures Value(s + [c]) == Value(s) * 10 + (c as int - '0' as int)
  {
    assert (s + [c])[..|s|] == s;
  }

  lemma {:induction false} ValueZeros(w: nat)
    ensures Value(Zeros(w)) == 0
  {
    if w > 0 {
      ValueZeros(w - 1);
      assert Zeros(w) == Zeros(w - 1) + ['0'];
      ValueAppend(Zeros(w - 1), '0');
    }
  }

  lemma {:induction false} ValueLeadingZeros(w: nat, s: string)
    requires AllDigits(s)
    ensures Value(Zeros(w) + s) == Value(s)
    decreases |s|
  {
    if s == "" {
      ValueZeros(w);
      assert Zeros(w) + s == Zeros(w);
    } else {
      var s', c := s[..|s| - 1], s[|s| - 1];
      ValueLeadingZeros(w, s');
      assert Zeros(w) + s == (Zeros(w) + s') + [c] && s == s' + [c];
      ValueAppend(Zeros(w) + s', c);
      ValueAppend(s', c);
    }
  }

  lemma ValuePadded(w: nat, n: nat)
    ensures Value(Padded(w, n)) == n
  {
    var d := Decimal(n);
    ValueDecimal(n);
    ValueLeadingZeros(if |d| >= w then 0 else w - |d|, d);
  }

  /** A number below 10^w needs at most w digits. */
  lemma {:induction false} DecimalLength(w: nat, n: nat)
    requires w > 0 && n < Pow10(w)
    ensures |Decimal(n)| <= w
  {
    if n >= 10 {
      assert Pow10(w) == 10 * Pow10(w - 1);
      assert w > 1;
      DecimalLength(w - 1, n / 10);
    }
  }

  lemma PaddedLength(w: nat, n: nat)
    requires w > 0 && n < Pow10(w)
    ensures |Padded(w, n)| == w
  {
    DecimalLength(w, n);
  }

  /** Rust's `Ord` on strings, restricted to what the proofs compare. */
  predicate Less(a: string, b: string) {
    b != "" && (a == "" || a[0] < b[0] || (a[0] == b[0] && Less(a[1..], b[1..])))
  }

  lemma {:induction false} ValueBound(s: string)
    requires AllDigits(s)
    ensures Value(s) < Pow10(|s|)
  {
    if s != "" {
      ValueBound(s[..|s| - 1]);
    }
  }

  lemma {:induction false} ValueHead(s: string)
    requires AllDigits(s) && s != ""
    ensures Value(s) == (s[0] as int - '0' as int) * Pow10(|s| - 1) + Value(s[1..])
  {
    var k := |s| - 1;
    if k > 0 {
      ValueHead(s[..k]);
      assert s[..k][1..] == s[1..][..k - 1];
      ShiftDigit(s[0] as int - '0' as int, Pow10(k - 1), Value(s[1..k]));
    } else {
      assert s[..0] == "";
    }
  }

  lemma ShiftDigit(d: int, p: int, v: int)
    ensures (d * p + v) * 10 == d * (p * 10) + v * 10
    ensures p * 10 == 10 * p
  {
  }

  lemma LeadingDigitDecides(x: nat, u: nat, y: nat, v: nat, p: nat)
    requires u < p && v < p && x < y
    ensures x * p + u < y * p + v
  {
    assert (x + 1) * p <= y * p;
  }

  /** On digit strings of one length the lexicographic order is the numeric order. */
  lemma {:induction false} LessIsNumeric(a: string, b: string)
    requires |a| == |b| && AllDigits(a) && AllDigits(b)
    ensures Less(a, b) <==> Value(a) < Value(b)
  {
    if a != "" {
      var p, u, v := Pow10(|a| - 1), Value(a[1..]), Value(b[1..]);
      ValueHead(a);
      ValueHead(b);
      ValueBound(a[1..]);
      ValueBound(b[1..]);
      LessIsNumeric(a[1..], b[1..]);
      var x, y := a[0] as int - '0' as int, b[0] as int - '0' as int;
      if x < y {
        LeadingDigitDecides(x, u, y, v, p);
      } else if y < x {
        LeadingDigitDecides(y, v, x, u, p);
      }
    }
  }

  lemma LessPrefix(p: string, a: string, b: string)
    ensures Less(p + a, p + b) <==> Less(a, b)
    decreases |p|
  {
    if p == "" {
      assert p + a == a && p + b == b;
    } else {
      LessPrefix(p[1..], a, b);
      assert (p + a)[1..] == p[1..] + a && (p + b)[1..] == p[1..] + b;
    }
  }

  /** `format!("{}{sep}{}", a, b)` determines both parts when the left one is free of `sep`. */
  lemma JoinInjective(a: string, b: string, a': string, b': string, sep: char)
    requires sep !in a && sep !in a'
    requires a + [sep] + b == a' + [sep] + b'
    ensures a == a' && b == b'
  {
    var s := a + [sep] + b;
    assert s == a' + [sep] + b';
    assert s[|a|] == sep && s[|a'|] == sep;
    assert forall i | 0 <= i < |a| :: s[i] == a[i] && s[i] in a;
    assert forall i | 0 <= i < |a'| :: s[i] == a'[i] && s[i] in a';
    assert a == s[..|a|] == a';
    assert b == s[|a| + 1..] == b';
  }

  /** `format!("{}#{}", tx_hash_hex, output_index)` */
  function UtxoKey(txHash: Hex, index: nat): string {
    txHash + "#" + Decimal(index)
  }

  /** `format!("{}:{}", address_hex, utxo_key)` */
  function IndexKey(address: Hex, utxoKey: string): string {
    address + ":" + utxoKey
  }

  /** `format!("slot#{:020}#{:010}", slot, event_index)` */
  function EventKey(slot: nat, index: nat): string {
    "slot#" + (Padded(20, slot) + "#" + Padded(10, index))
  }

  lemma UtxoKeyInjective(h: Hex, i: nat, h': Hex, i': nat)
    requires UtxoKey(h, i) == UtxoKey(h', i')
    ensures h == h' && i == i'
  {
    JoinInjective(h, Decimal(i), h', Decimal(i'), '#');
    ValueDecimal(i);
    ValueDecimal(i');
  }

  lemma IndexKeyInjective(a: Hex, k: string, a': Hex, k': string)
    requires IndexKey(a, k) == IndexKey(a', k')
    ensures a == a' && k == k'
  {
    JoinInjective(a, k, a', k', ':');
  }

  lemma EventKeyInjective(s: nat, i: nat, s': nat, i': nat)
    requires EventKey(s, i) == EventKey(s', i')
    ensures s == s' && i == i'
  {
    var l, r := Padded(20, s) + "#" + Padded(10, i), Padded(20, s') + "#" + Padded(10, i');
    assert l == EventKey(s, i)[5..] && r == EventKey(s', i')[5..];
    JoinInjective(Padded(20, s), Padded(10, i), Padded(20, s'), Padded(10, i'), '#');
    ValuePadded(20, s);
    ValuePadded(20, s');
    ValuePadded(10, i);
    ValuePadded(10, i');
  }
}
