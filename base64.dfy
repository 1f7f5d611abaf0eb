/**
 * Base64 encoding with padding, the standard alphabet of section 4 of RFC 4648,
 * as `Buffer.from(bytes).toString('base64')` produces it. Only what the photo
 * signature check needs is proved: the length, and which bytes decide the first
 * five characters.
 */
module Base64 {

  type byte = x: int | 0 <= x < 256

  /** The character for the six-bit value `k`: A-Z, a-z, 0-9, '+', '/'. */
  function Digit(k: int): char
    requires 0 <= k < 64
  {
    if k < 26 then (65 + k) as char
    else if k < 52 then (97 + (k - 26)) as char
    else if k < 62 then (48 + (k - 52)) as char
    else if k == 62 then '+'
    else '/'
  }

  /** Each group of three bytes becomes four characters; a final group of one or two is padded with '='. */
  function Encode(b: seq<byte>): (s: string)
    ensures |s| == 4 * ((|b| + 2) / 3)
    decreases |b|
  {
    if |b| == 0 then ""
    else if |b| == 1 then
      [Digit(b[0] / 4), Digit(b[0] % 4 * 16), '=', '=']
    else if |b| == 2 then
      [Digit(b[0] / 4), Digit(b[0] % 4 * 16 + b[1] / 16), Digit(b[1] % 16 * 4), '=']
    else
      [Digit(b[0] / 4), Digit(b[0] % 4 * 16 + b[1] / 16), Digit(b[1] % 16 * 4 + b[2] / 64), Digit(b[2] % 64)]
      + Encode(b[3..])
  }

  /** The six-bit values of the characters the signature check looks for. */
  lemma DigitValues(k: int)
    requires 0 <= k < 64
    ensures Digit(k) == 'i' <==> k == 34
    ensures Digit(k) == '/' <==> k == 63
    ensures Digit(k) == '9' <==> k == 61
    ensures Digit(k) == 'j' <==> k == 35
    ensures Digit(k) == '4' <==> k == 56
  {
  }

  /**
   * The first character depends on the first byte only, the first four on the
   * first three bytes, and the fifth, which exists once there are four bytes, on
   * the fourth byte.
   */
  lemma EncodePrefix(b: seq<byte>)
    ensures |b| >= 1 ==> Encode(b)[0] == Digit(b[0] / 4)
    ensures |b| >= 3 ==> Encode(b)[..4] == [Digit(b[0] / 4), Digit(b[0] % 4 * 16 + b[1] / 16),
                                           Digit(b[1] % 16 * 4 + b[2] / 64), Digit(b[2] % 64)]
    ensures |b| >= 4 ==> Encode(b)[4] == Digit(b[3] / 4)
  {
    if |b| >= 4 {
      var rest := b[3..];
      assert Encode(rest)[0] == Digit(rest[0] / 4);
      assert Encode(b)[4] == Encode(rest)[0];
    }
  }
}
