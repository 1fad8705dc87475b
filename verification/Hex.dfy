/** Lower-case hexadecimal text as bytes, and its decoder, which also takes upper case. */
module Hex {
  import opened Options

  type byte = b: int | 0 <= b < 256
  type bytes = seq<byte>

  function Digit(n: nat): (c: byte)
    requires n < 16
  {
    if n < 10 then 48 + n else 87 + n
  }

  function FromDigit(c: byte): (n: Option<nat>)
    ensures n.Some? ==> n.value < 16
  {
    if 48 <= c <= 57 then Some(c - 48)
    else if 97 <= c <= 102 then Some(c - 87)
    else if 65 <= c <= 70 then Some(c - 55)
    else None
  }

  function Encode(data: bytes): (text: bytes)
    ensures |text| == 2 * |data|
  {
    if data == [] then [] else [Digit(data[0] / 16), Digit(data[0] % 16)] + Encode(data[1..])
  }

  /** Fails on a byte that is no digit and on an odd number of bytes. */
  function Decode(text: bytes): (data: Option<bytes>)
    ensures data.Some? ==> 2 * |data.value| == |text|
  {
    if text == [] then Some([])
    else if |text| == 1 then None
    else
      var high, low, rest := FromDigit(text[0]), FromDigit(text[1]), Decode(text[2..]);
      if high.Some? && low.Some? && rest.Some? then Some([high.value * 16 + low.value] + rest.value) else None
  }

  function Lower(text: bytes): bytes {
    seq(|text|, i requires 0 <= i < |text| => if 65 <= text[i] <= 70 then text[i] + 32 else text[i])
  }

  lemma DigitThenValue(n: nat)
    requires n < 16
    ensures FromDigit(Digit(n)) == Some(n)
  {
  }

  const LOWER_DIGITS := "0123456789abcdef"
  const UPPER_DIGITS := "0123456789ABCDEF"

  /** A character stands for `n` exactly when it is digit number `n`, in either case. */
  lemma DigitsHaveValues(c: byte, n: nat)
    requires n < 16
    ensures FromDigit(c) == Some(n) <==> c as char == LOWER_DIGITS[n] || c as char == UPPER_DIGITS[n]
    ensures Digit(n) as char == LOWER_DIGITS[n]
  {
  }

  /** Every byte becomes two digits, the higher one first. */
  lemma {:induction false} EncodedAt(data: bytes, k: nat)
    requires k < |data|
    ensures Encode(data)[2 * k] as char == LOWER_DIGITS[data[k] / 16]
    ensures Encode(data)[2 * k + 1] as char == LOWER_DIGITS[data[k] % 16]
  {
    if k == 0 {
      DigitsHaveValues(0, data[0] / 16);
      DigitsHaveValues(0, data[0] % 16);
    } else {
      EncodedAt(data[1..], k - 1);
      assert Encode(data)[2..] == Encode(data[1..]);
    }
  }

  lemma {:induction false} EncodeThenDecode(data: bytes)
    ensures Decode(Encode(data)) == Some(data)
  {
    if data != [] {
      EncodeThenDecode(data[1..]);
      DigitThenValue(data[0] / 16);
      DigitThenValue(data[0] % 16);
      assert Encode(data)[2..] == Encode(data[1..]);
      assert [data[0]] + data[1..] == data;
    }
  }

  lemma {:induction false} DecodeThenEncode(text: bytes)
    requires Decode(text).Some?
    ensures Encode(Decode(text).value) == Lower(text)
  {
    if text != [] {
      DecodeThenEncode(text[2..]);
      assert Decode(text).value[1..] == Decode(text[2..]).value;
      assert Lower(text)[2..] == Lower(text[2..]);
      assert Lower(text) == Lower(text)[..2] + Lower(text)[2..];
    }
  }

  lemma {:induction false} DecodeIgnoresCase(text: bytes)
    ensures Decode(Lower(text)) == Decode(text)
  {
    if |text| >= 2 {
      DecodeIgnoresCase(text[2..]);
      assert Lower(text)[2..] == Lower(text[2..]);
    }
  }

  /** A text decodes to `data` exactly when it is its encoding, up to the case of its letters. */
  lemma DecodesTo(text: bytes, data: bytes)
    ensures Decode(text) == Some(data) <==> Lower(text) == Encode(data)
  {
    if Decode(text) == Some(data) {
      DecodeThenEncode(text);
    }
    if Lower(text) == Encode(data) {
      EncodeThenDecode(data);
      DecodeIgnoresCase(text);
    }
  }

  /** What decodes: an even number of hexadecimal digits. */
  lemma {:induction false} DecodableTexts(text: bytes)
    ensures Decode(text).Some? <==> |text| % 2 == 0 && forall i :: 0 <= i < |text| ==> FromDigit(text[i]).Some?
  {
    if |text| >= 2 {
      DecodableTexts(text[2..]);
      assert forall i :: 2 <= i < |text| ==> text[i] == text[2..][i - 2];
    }
  }
}
