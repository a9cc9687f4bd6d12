/** Bytes as hexadecimal text. */
module Hex {
  import opened Base
  import opened Decimal

  type Byte = n: nat | n < 256

  function HexDigit(n: nat): char
    requires n < 16
  {
    if n < 10 then Digit(n) else ('a' as int + (n - 10)) as char
  }

  /** The value of a digit; capital letters are accepted too. */
  function Nibble(c: char): (r: Option<nat>)
    ensures r.Some? ==> r.value < 16
  {
    if IsDigit(c) then Some(DigitValue(c))
    else if 'a' <= c <= 'f' then Some(c as int - 'a' as int + 10)
    else if 'A' <= c <= 'F' then Some(c as int - 'A' as int + 10)
    else None
  }

  function HexText(bytes: seq<Byte>): (s: string)
    ensures |s| == 2 * |bytes|
  {
    if bytes == [] then [] else [HexDigit(bytes[0] / 16), HexDigit(bytes[0] % 16)] + HexText(bytes[1..])
  }

  function FromHex(s: string): Option<seq<Byte>> {
    if s == [] then Some([])
    else if |s| == 1 then None
    else
      match (Nibble(s[0]), Nibble(s[1]))
      case (Some(hi), Some(lo)) =>
        (match FromHex(s[2..])
         case Some(rest) => Some([hi * 16 + lo] + rest)
         case None => None)
      case _ => None
  }

  lemma {:induction false} NibbleReads(n: nat)
    requires n < 16
    ensures Nibble(HexDigit(n)) == Some(n)
  {
  }

  /** Decoding undoes encoding. */
  lemma {:induction false} HexReads(bytes: seq<Byte>)
    ensures FromHex(HexText(bytes)) == Some(bytes)
  {
    if bytes != [] {
      var b := bytes[0];
      NibbleReads(b / 16);
      NibbleReads(b % 16);
      HexReads(bytes[1..]);
      assert HexText(bytes)[2..] == HexText(bytes[1..]);
      assert bytes == [b] + bytes[1..];
    }
  }

  /** So different bytes have different texts. */
  lemma {:induction false} HexInjective(a: seq<Byte>, b: seq<Byte>)
    requires HexText(a) == HexText(b)
    ensures a == b
  {
    HexReads(a);
    HexReads(b);
  }

  predicate IsHexChar(c: char) {
    IsDigit(c) || 'a' <= c <= 'f'
  }

  lemma {:induction false} HexChars(bytes: seq<Byte>, i: nat)
    requires i < |HexText(bytes)|
    ensures IsHexChar(HexText(bytes)[i])
  {
    if i >= 2 {
      HexChars(bytes[1..], i - 2);
    }
  }
}
