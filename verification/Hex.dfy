/** Hexadecimal text of byte strings (section 8 of RFC 4648), as `hex::encode` and `hex::decode` use it. */
module Hex {
  import opened Base

  function Digit(n: int): char
    requires 0 <= n < 16
  {
    "0123456789abcdef"[n]
  }

  /** Both letter cases are read; only lower case is written. */
  function Value(c: char): Option<int> {
    if '0' <= c <= '9' then Some(c as int - '0' as int)
    else if 'a' <= c <= 'f' then Some(c as int - 'a' as int + 10)
    else if 'A' <= c <= 'F' then Some(c as int - 'A' as int + 10)
    else None
  }

  function Encode(data: seq<byte>): string {
    if data == [] then "" else [Digit(data[0] / 16), Digit(data[0] % 16)] + Encode(data[1..])
  }

  /** None stands for the decoder's errors: odd length, or a character that is no digit. */
  function Decode(text: string): Option<seq<byte>> {
    if |text| == 0 then Some([])
    else if |text| == 1 then None
    else
      var hi, lo, rest := Value(text[0]), Value(text[1]), Decode(text[2..]);
      if hi.Some? && lo.Some? && rest.Some? then
        Some([16 * hi.value + lo.value] + rest.value)
      else None
  }

  ghost predicate LowerHex(text: string) {
    forall i :: 0 <= i < |text| ==> '0' <= text[i] <= '9' || 'a' <= text[i] <= 'f'
  }

  lemma RoundTrip(data: seq<byte>)
    ensures Decode(Encode(data)) == Some(data)
    ensures LowerHex(Encode(data))
    ensures |Encode(data)| == 2 * |data|
  {
    DecodeEncode(data);
    EncodeIsLowerHex(data);
  }

  lemma {:induction false} DecodeEncode(data: seq<byte>)
    ensures Decode(Encode(data)) == Some(data)
  {
    if data != [] {
      var hi, lo, rest := Digit(data[0] / 16), Digit(data[0] % 16), Encode(data[1..]);
      DecodeEncode(data[1..]);
      DigitValue(data[0] / 16);
      DigitValue(data[0] % 16);
      assert [data[0]] + data[1..] == data;
    }
  }

  lemma {:induction false} EncodeIsLowerHex(data: seq<byte>)
    ensures LowerHex(Encode(data)) && |Encode(data)| == 2 * |data|
  {
    if data != [] {
      EncodeIsLowerHex(data[1..]);
      DigitValue(data[0] / 16);
      DigitValue(data[0] % 16);
    }
  }

  lemma DigitValue(n: int)
    requires 0 <= n < 16
    ensures Value(Digit(n)) == Some(n)
    ensures '0' <= Digit(n) <= '9' || 'a' <= Digit(n) <= 'f'
  {
  }

  lemma {:induction false} DecodedIsHex(text: string)
    requires Decode(text).Some?
    ensures forall i :: 0 <= i < |text| ==> Value(text[i]).Some?
  {
    if |text| >= 2 {
      DecodedIsHex(text[2..]);
      forall i | 0 <= i < |text| ensures Value(text[i]).Some? {
        if i >= 2 {
          assert text[i] == text[2..][i - 2];
        }
      }
    }
  }
}
