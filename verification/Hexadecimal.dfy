/** `hex::encode` and `hex::decode`. */
module Hexadecimal {
  import opened Wrappers
  import opened Text
  import opened Cbor

  const HEX_DIGITS := "0123456789abcdef"

  function ToHex(bytes: Bytes): (s: Hex)
    ensures |s| == 2 * |bytes|
  {
    if bytes == [] then "" else [HEX_DIGITS[bytes[0] / 16], HEX_DIGITS[bytes[0] % 16]] + ToHex(bytes[1..])
  }

  function DigitValue(c: char): Option<nat> {
    if '0' <= c <= '9' then Some(c as nat - '0' as nat)
    else if 'a' <= c <= 'f' then Some(c as nat - 'a' as nat + 10)
    else if 'A' <= c <= 'F' then Some(c as nat - 'A' as nat + 10)
    else None
  }

  function FromHex(s: string): Option<Bytes> {
    if s == "" then Some([])
    else if |s| == 1 then None
    else
      var high, low, rest := DigitValue(s[0]), DigitValue(s[1]), FromHex(s[2..]);
      if high.Some? && low.Some? && rest.Some? && high.value < 16 && low.value < 16
      then Some([high.value * 16 + low.value] + rest.value) else None
  }

  lemma DigitReadsBack(n: nat)
    requires n < 16
    ensures DigitValue(HEX_DIGITS[n]) == Some(n)
  {
  }

  lemma {:induction false} HexReadsBack(bytes: Bytes)
    ensures FromHex(ToHex(bytes)) == Some(bytes)
  {
    hide DigitValue, FromHex;
    if bytes == [] {
      NoDigits();
    } else {
      HexReadsBack(bytes[1..]);
      PairReadsBack(bytes[0], ToHex(bytes[1..]));
      assert [bytes[0]] + bytes[1..] == bytes;
    }
  }

  lemma NoDigits()
    ensures FromHex("") == Some([])
  {
  }

  lemma PairReadsBack(b: byte, rest: string)
    requires FromHex(rest).Some?
    ensures FromHex([HEX_DIGITS[b / 16], HEX_DIGITS[b % 16]] + rest) == Some([b] + FromHex(rest).value)
  {
    hide DigitValue, FromHex;
    DigitReadsBack(b / 16);
    DigitReadsBack(b % 16);
    DecodePair(HEX_DIGITS[b / 16], HEX_DIGITS[b % 16], rest, b / 16, b % 16);
  }

  lemma DecodePair(high: char, low: char, rest: string, h: nat, l: nat)
    requires DigitValue(high) == Some(h) && DigitValue(low) == Some(l) && h < 16 && l < 16
    requires FromHex(rest).Some?
    ensures FromHex([high, low] + rest) == Some([h * 16 + l] + FromHex(rest).value)
  {
    hide DigitValue;
    assert ([high, low] + rest)[2..] == rest;
  }

}
