/** Hexadecimal text: how the gateway prints bytes, and a reader of it. */
module HexText {
  import opened Wrappers
  import opened Basics

  function HexDigit(d: nat): char
    requires d < 16
  {
    if d < 10 then ('0' as int + d) as char else ('a' as int + d - 10) as char
  }

  /** `{b:02x}` of every byte: two digits each, the higher one first. */
  function Hex(bytes: seq<Byte>): string {
    if bytes == [] then [] else [HexDigit(bytes[0] / 16), HexDigit(bytes[0] % 16)] + Hex(bytes[1..])
  }

  function HexNat(n: nat): string {
    if n < 16 then [HexDigit(n)] else HexNat(n / 16) + [HexDigit(n % 16)]
  }

  /** `{n:02x}`: at least two digits. */
  function HexPair(n: nat): string {
    if n < 16 then "0" + HexNat(n) else HexNat(n)
  }

  lemma PairOfByte(b: Byte)
    ensures HexPair(b) == [HexDigit(b / 16), HexDigit(b % 16)]
  {
    if b >= 16 {
      assert HexNat(b / 16) == [HexDigit(b / 16)];
    }
  }

  // ----- Reading it -----

  function HexValue(c: char): Option<nat> {
    if '0' <= c <= '9' then Some(c as nat - '0' as nat)
    else if 'a' <= c <= 'f' then Some(c as nat - 'a' as nat + 10)
    else if 'A' <= c <= 'F' then Some(c as nat - 'A' as nat + 10)
    else None
  }

  /** The bytes that `decode(…, 'hex')` makes of a text. */
  function UnHex(s: string): Option<seq<Byte>> {
    if s == [] then Some([])
    else if |s| == 1 || HexValue(s[0]).None? || HexValue(s[1]).None? then None
    else
      var high, low := HexValue(s[0]).value, HexValue(s[1]).value;
      var rest := UnHex(s[2..]);
      if rest.Some? && high * 16 + low < 256 then Some([high * 16 + low] + rest.value) else None
  }

  lemma HexDigitValue(d: nat)
    requires d < 16
    ensures HexValue(HexDigit(d)) == Some(d) && HexDigit(d) != '\''
  {
  }

  /** Printing bytes in hex and reading them gives the bytes back. */
  lemma {:induction false} HexReadsBack(bytes: seq<Byte>)
    ensures UnHex(Hex(bytes)) == Some(bytes) && '\'' !in Hex(bytes)
  {
    if bytes != [] {
      var b, h := bytes[0], Hex(bytes);
      HexDigitValue(b / 16);
      HexDigitValue(b % 16);
      HexReadsBack(bytes[1..]);
      assert h[2..] == Hex(bytes[1..]);
      assert bytes == [b] + bytes[1..];
    }
  }
}
