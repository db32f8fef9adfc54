/** Hexadecimal text as `bin2hex`, `gmp_strval` and `gmp_init` write and read it. */
module Hex {
  import opened Arithmetic
  import opened Numerals
  import opened Options
  import opened Text

  type Byte = b: int | 0 <= b < 256
  type Bytes = seq<Byte>

  function LowerDigit(d: nat): char
    requires d < 16
  {
    if d < 10 then ('0' as int + d) as char else ('a' as int + d - 10) as char
  }

  /** The value of one digit of either case. */
  function DigitValue(c: char): Option<nat> {
    if '0' <= c <= '9' then Some(c as int - '0' as int)
    else if 'a' <= c <= 'f' then Some(c as int - 'a' as int + 10)
    else if 'A' <= c <= 'F' then Some(c as int - 'A' as int + 10)
    else None
  }

  function HexText(ds: Digits): (s: string)
    requires InBase(ds, 16)
    ensures |s| == |ds|
    ensures forall i :: 0 <= i < |ds| ==> s[i] == LowerDigit(ds[i])
  {
    seq(|ds|, i requires 0 <= i < |ds| => LowerDigit(ds[i]))
  }

  predicate IsHex(s: string) {
    forall i :: 0 <= i < |s| ==> DigitValue(s[i]).Some?
  }

  function HexDigits(s: string): (ds: Digits)
    requires IsHex(s)
    ensures |ds| == |s|
    ensures forall i :: 0 <= i < |s| ==> ds[i] == DigitValue(s[i]).value
  {
    seq(|s|, i requires 0 <= i < |s| => DigitValue(s[i]).value)
  }

  /** `gmp_init(s, 16)`: nothing for an empty or malformed string. */
  function ParseHex(s: string): Option<nat> {
    if s != "" && IsHex(s) then Some(BigEndian(HexDigits(s), 16)) else None
  }

  /** Exactly the texts of hexadecimal digits in either case are read. */
  lemma ParseHexExact(s: string)
    ensures ParseHex(s).Some? <==>
            s != "" && forall i :: 0 <= i < |s| ==> '0' <= s[i] <= '9' || 'a' <= s[i] <= 'f' || 'A' <= s[i] <= 'F'
  {
  }

  /** `gmp_strval(n, 16)`. */
  function GmpText(n: nat): string {
    if n == 0 then "0" else HexText(Minimal(n, 16))
  }

  lemma {:induction false} SplitBytes(b: Bytes)
    ensures InBase(Split(b, 16), 16)
  {
    if b != [] {
      SplitBytes(b[..|b| - 1]);
    }
  }

  /** `bin2hex`. */
  function Bin2Hex(b: Bytes): string {
    SplitBytes(b);
    HexText(Split(b, 16))
  }

  lemma UpperHexReads(ds: Digits)
    requires InBase(ds, 16) && ds != []
    ensures ParseHex(Upper(HexText(ds))) == Some(BigEndian(ds, 16))
    ensures ParseHex(HexText(ds)) == Some(BigEndian(ds, 16))
  {
    var t := HexText(ds);
    forall i | 0 <= i < |ds|
      ensures DigitValue(Upper(t)[i]) == Some(ds[i]) && DigitValue(t[i]) == Some(ds[i])
    {
      assert Upper(t)[i] == UpperChar(LowerDigit(ds[i]));
    }
    assert HexDigits(Upper(t)) == ds && HexDigits(t) == ds;
  }

  /** Hexadecimal bytes denote the big-endian number of the bytes, in either letter case. */
  lemma BinHexReads(b: Bytes)
    requires b != []
    ensures ParseHex(Bin2Hex(b)) == Some(BigEndian(b, 256))
    ensures ParseHex(Upper(Bin2Hex(b))) == Some(BigEndian(b, 256))
    ensures |Bin2Hex(b)| == 2 * |b|
  {
    SplitBytes(b);
    SplitReads(b, 16);
    UpperHexReads(Split(b, 16));
  }

  /** Printing a number and parsing it back, after `strtoupper`, changes nothing. */
  lemma GmpTextReads(n: nat)
    ensures ParseHex(Upper(GmpText(n))) == Some(n)
  {
    if n == 0 {
      assert GmpText(n) == HexText([0]);
      assert BigEndian([0][..0], 16) == 0;
      UpperHexReads([0]);
    } else {
      ReadMinimal(n, 16);
      UpperHexReads(Minimal(n, 16));
    }
  }

  /** `gmpFromLittleEndian`. */
  function GmpFromLittleEndian(bytes: Bytes): Option<nat> {
    ParseHex(Bin2Hex(Reverse(bytes)))
  }

  /** It reads its argument as the little-endian number: byte i has weight 256^i. */
  lemma LittleEndianReads(bytes: Bytes)
    ensures GmpFromLittleEndian(bytes) ==
            if bytes == [] then None else Some(LittleEndian(bytes, 256))
  {
    if bytes != [] {
      var ds: Digits := bytes;
      assert Reverse<Byte>(bytes) == Reverse<nat>(ds);
      BinHexReads(Reverse(bytes));
      ReverseReads(ds, 256);
    }
  }
}
