/** The base64 encoding of section 4 of RFC 4648, restricted to what the
    downlink payloads need: a final quantum of exactly one byte, which encodes
    as two alphabet characters followed by two '=' pad characters. */
module Base64 {
  import opened Values

  /** The character for a 6-bit value (Table 1 of RFC 4648). */
  function CharOf(v: nat): (c: char)
    requires v < 64
  {
    if v < 26 then ('A' as int + v) as char
    else if v < 52 then ('a' as int + (v - 26)) as char
    else if v < 62 then ('0' as int + (v - 52)) as char
    else if v == 62 then '+'
    else '/'
  }

  /** The 6-bit value of an alphabet character, None for any other character
      (the pad character included). */
  function ValueOf(c: char): (r: Option<nat>)
    ensures r.Some? ==> r.value < 64
  {
    if 'A' <= c <= 'Z' then Some(c as int - 'A' as int)
    else if 'a' <= c <= 'z' then Some(c as int - 'a' as int + 26)
    else if '0' <= c <= '9' then Some(c as int - '0' as int + 52)
    else if c == '+' then Some(62)
    else if c == '/' then Some(63)
    else None
  }

  /** The alphabet is a bijection between 6-bit values and its 64 characters. */
  lemma AlphabetBijective(v: nat, c: char)
    requires v < 64
    ensures ValueOf(CharOf(v)) == Some(v)
    ensures ValueOf(c) == Some(v) <==> CharOf(v) == c
  {
  }

  /** One byte: its high six bits, then its low two bits followed by four zero
      bits, then two pad characters. */
  function EncodeByte(b: nat): (s: string)
    requires b < 256
    ensures |s| == 4 && s[2] == '=' && s[3] == '='
    ensures ValueOf(s[0]).Some? && ValueOf(s[1]).Some?
  {
    AlphabetBijective(b / 4, 'A');
    AlphabetBijective(b % 4 * 16, 'A');
    [CharOf(b / 4), CharOf(b % 4 * 16), '=', '=']
  }

  /** Decodes a padded one-byte quantum. Non-canonical input, whose discarded
      low four bits are not zero, is refused as section 3.5 of RFC 4648 allows. */
  function DecodeByte(s: string): (r: Option<nat>)
    ensures r.Some? ==> r.value < 256
  {
    if |s| != 4 || s[2] != '=' || s[3] != '=' then None
    else match (ValueOf(s[0]), ValueOf(s[1]))
      case (Some(hi), Some(lo)) =>
        if lo % 16 != 0 then None else Some(hi * 4 + lo / 16)
      case _ => None
  }

  /** Decoding inverts encoding. */
  lemma DecodeEncode(b: nat)
    requires b < 256
    ensures DecodeByte(EncodeByte(b)) == Some(b)
  {
    var s := EncodeByte(b);
    AlphabetBijective(b / 4, s[0]);
    AlphabetBijective(b % 4 * 16, s[1]);
    assert b % 4 * 16 / 16 == b % 4;
  }

  /** Encoding inverts decoding: a string decodes to b exactly when it is the
      encoding of b. */
  lemma DecodeByteIff(s: string, b: nat)
    requires b < 256
    ensures DecodeByte(s) == Some(b) <==> s == EncodeByte(b)
  {
    if s == EncodeByte(b) {
      DecodeEncode(b);
    }
    if DecodeByte(s) == Some(b) {
      var hi := ValueOf(s[0]).value;
      var lo := ValueOf(s[1]).value;
      assert hi * 4 + lo / 16 == b;
      assert hi == b / 4 && lo == b % 4 * 16;
      AlphabetBijective(hi, s[0]);
      AlphabetBijective(lo, s[1]);
      assert s == [CharOf(hi), CharOf(lo), '=', '='];
    }
  }

  /** Distinct bytes have distinct encodings. */
  lemma EncodeInjective(a: nat, b: nat)
    requires a < 256 && b < 256
    ensures EncodeByte(a) == EncodeByte(b) <==> a == b
  {
    if EncodeByte(a) == EncodeByte(b) {
      DecodeEncode(a);
      DecodeEncode(b);
    }
  }
}
