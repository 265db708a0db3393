/**
  The hexadecimal text codec of src/BLEScanner.cpp: `hexStringToVector`
  (hex text to bytes, either letter case) and `bytesToHexString` (bytes to
  upper-case hex text).  The capture record carries vendor data and service
  data as such text, so every decode path starts with this codec.
*/
module Hex {
  import opened Bytes
  import opened Wrappers

  predicate IsHexDigit(c: char)
  {
    ('0' <= c <= '9') || ('A' <= c <= 'F') || ('a' <= c <= 'f')
  }

  predicate IsUpperHexDigit(c: char)
  {
    ('0' <= c <= '9') || ('A' <= c <= 'F')
  }

  /** The nibble a hex digit stands for; upper and lower case letters agree. */
  function HexValue(c: char): (n: nat)
    requires IsHexDigit(c)
    ensures n < 16
  {
    if '0' <= c <= '9' then c as int - '0' as int
    else if 'A' <= c <= 'F' then c as int - 'A' as int + 10
    else c as int - 'a' as int + 10
  }

  /** HEX_CHARS[n]: the upper-case digit for a nibble. */
  function HexDigit(n: nat): (c: char)
    requires n < 16
    ensures IsUpperHexDigit(c) && HexValue(c) == n
  {
    "0123456789ABCDEF"[n]
  }

  /** The two digits written for one byte, high nibble first. */
  function HexPair(b: byte): (s: string)
  {
    [HexDigit(b / 16), HexDigit(b % 16)]
  }

  /** The text `bytesToHexString` produces: two upper-case digits per byte, in byte order. */
  function HexEncode(data: seq<byte>): (s: string)
    ensures |s| == 2 * |data|
    ensures forall k :: 0 <= k < |data| ==> s[2 * k] == HexDigit(data[k] / 16) && s[2 * k + 1] == HexDigit(data[k] % 16)
  {
    if data == [] then [] else HexEncode(data[..|data| - 1]) + HexPair(data[|data| - 1])
  }

  /** The byte that the digits at positions 2k and 2k+1 stand for. */
  function PairValue(s: string, k: nat): (b: byte)
    requires 2 * k + 1 < |s| && IsHexDigit(s[2 * k]) && IsHexDigit(s[2 * k + 1])
  {
    HexValue(s[2 * k]) * 16 + HexValue(s[2 * k + 1])
  }

  predicate AllHexDigits(s: string)
  {
    forall i :: 0 <= i < |s| ==> IsHexDigit(s[i])
  }

  /** What `hexStringToVector` accepts and the bytes it then produces. */
  function HexDecode(s: string): (r: Option<seq<byte>>)
  {
    if |s| % 2 == 1 || !AllHexDigits(s) then None
    else Some(seq(|s| / 2, k requires 0 <= k < |s| / 2 => PairValue(s, k)))
  }

  /**
    hexStringToVector.  On odd length it fails and leaves the caller's buffer
    as it was; otherwise it clears the buffer first, so a non-hex character
    fails with the buffer emptied.
  */
  method HexStringToVector(hexStr: string, buffer: seq<byte>) returns (ok: bool, result: seq<byte>)
    ensures ok <==> |hexStr| % 2 == 0 && AllHexDigits(hexStr)
    ensures ok ==> |result| == |hexStr| / 2
    ensures ok ==> forall k :: 0 <= k < |result| ==> result[k] == PairValue(hexStr, k)
    ensures !ok && |hexStr| % 2 == 1 ==> result == buffer
    ensures !ok && |hexStr| % 2 == 0 ==> result == []
    ensures ok == HexDecode(hexStr).Some? && (ok ==> result == HexDecode(hexStr).value)
  {
    var len := |hexStr|;
    if len % 2 == 1 {
      return false, buffer;
    }
    if len == 0 {
      return true, [];
    }
    var out := new byte[len / 2];
    var i := 0;
    while i < len
      invariant 0 <= i <= len && i % 2 == 0
      invariant forall k :: 0 <= k < i ==> IsHexDigit(hexStr[k])
      invariant forall k :: 0 <= k < i / 2 ==> out[k] == PairValue(hexStr, k)
    {
      var val := 0;
      var j := 0;
      while j < 2
        invariant 0 <= j <= 2
        invariant forall k :: i <= k < i + j ==> IsHexDigit(hexStr[k])
        invariant j == 0 ==> val == 0
        invariant j == 1 ==> val == HexValue(hexStr[i])
        invariant j == 2 ==> val == HexValue(hexStr[i]) * 16 + HexValue(hexStr[i + 1])
      {
        var c := hexStr[i + j];
        var nibble: int;
        if '0' <= c <= '9' {
          nibble := c as int - '0' as int;
        } else if 'A' <= c <= 'F' {
          nibble := c as int - 'A' as int + 10;
        } else if 'a' <= c <= 'f' {
          nibble := c as int - 'a' as int + 10;
        } else {
          return false, [];
        }
        val := val * 16 + nibble;
        j := j + 1;
      }
      out[i / 2] := val;
      i := i + 2;
    }
    result := out[..];
    ok := true;
  }

  /** bytesToHexString: appends two upper-case digits per byte. */
  method BytesToHexString(data: seq<byte>) returns (hexStr: string)
    ensures |hexStr| == 2 * |data|
    ensures forall i :: 0 <= i < |hexStr| ==> IsUpperHexDigit(hexStr[i])
    ensures hexStr == HexEncode(data)
  {
    hexStr := "";
    if |data| == 0 {
      return;
    }
    var i := 0;
    while i < |data|
      invariant 0 <= i <= |data|
      invariant hexStr == HexEncode(data[..i])
    {
      assert data[..i + 1][..i] == data[..i];
      hexStr := hexStr + [HexDigit(data[i] / 16)];
      hexStr := hexStr + [HexDigit(data[i] % 16)];
      i := i + 1;
    }
    assert data[..i] == data;
    EncodeIsUpper(data);
  }

  /** Every character `bytesToHexString` writes is an upper-case hex digit. */
  lemma EncodeIsUpper(data: seq<byte>)
    ensures forall i :: 0 <= i < |HexEncode(data)| ==> IsUpperHexDigit(HexEncode(data)[i])
  {
    var s := HexEncode(data);
    forall i | 0 <= i < |s| ensures IsUpperHexDigit(s[i]) {
      var k := i / 2;
      assert k < |data|;
      if i == 2 * k {
        assert s[i] == HexDigit(data[k] / 16);
      } else {
        assert s[i] == HexDigit(data[k] % 16);
      }
    }
  }

  /** Decoding what `bytesToHexString` wrote gives back the original bytes. */
  lemma DecodeEncode(data: seq<byte>)
    ensures HexDecode(HexEncode(data)) == Some(data)
  {
    var s := HexEncode(data);
    EncodeIsUpper(data);
    var d := HexDecode(s).value;
    assert |d| == |data|;
    forall k | 0 <= k < |data| ensures d[k] == data[k] {
      assert d[k] == PairValue(s, k);
    }
    assert d == data;
  }

  /** A letter digit in either case, mapped to upper case. */
  function ToUpperHex(c: char): (u: char)
    requires IsHexDigit(c)
    ensures IsUpperHexDigit(u) && HexValue(u) == HexValue(c)
  {
    if 'a' <= c <= 'f' then c - 'a' as char + 'A' else c
  }

  /** The two nibbles of a byte are recovered by division and remainder. */
  lemma NibblesOfPair(h: nat, l: nat)
    requires h < 16 && l < 16
    ensures (h * 16 + l) / 16 == h && (h * 16 + l) % 16 == l
  {
  }

  /**
    Encoding what `hexStringToVector` accepted gives back the text up to
    letter case: the two functions are inverse on upper-case hex text.
  */
  lemma EncodeDecode(s: string)
    requires HexDecode(s).Some?
    ensures |HexEncode(HexDecode(s).value)| == |s|
    ensures forall i :: 0 <= i < |s| ==> HexEncode(HexDecode(s).value)[i] == ToUpperHex(s[i])
  {
    forall i | 0 <= i < |s| ensures HexEncode(HexDecode(s).value)[i] == ToUpperHex(s[i]) {
      var k := i / 2;
      assert i == 2 * k || i == 2 * k + 1;
      EncodeDecodePair(s, k);
    }
  }

  /** One byte of EncodeDecode: both digits re-encoded for byte k are the originals in upper case. */
  lemma EncodeDecodePair(s: string, k: nat)
    requires HexDecode(s).Some? && 2 * k < |s|
    ensures 2 * k + 1 < |HexEncode(HexDecode(s).value)|
    ensures HexEncode(HexDecode(s).value)[2 * k] == ToUpperHex(s[2 * k])
    ensures HexEncode(HexDecode(s).value)[2 * k + 1] == ToUpperHex(s[2 * k + 1])
  {
    DecodedPair(s, k);
    var h, l := HexValue(s[2 * k]), HexValue(s[2 * k + 1]);
    var b := HexDecode(s).value[k];
    NibblesOfPair(h, l);
    assert b / 16 == h && b % 16 == l;
    EncodedPair(HexDecode(s).value, k);
    DigitOfValue(s[2 * k], h);
    DigitOfValue(s[2 * k + 1], l);
  }

  /** Characters 2k and 2k+1 of the encoding are the digits of byte k. */
  lemma EncodedPair(data: seq<byte>, k: nat)
    requires k < |data|
    ensures HexEncode(data)[2 * k] == HexDigit(data[k] / 16)
    ensures HexEncode(data)[2 * k + 1] == HexDigit(data[k] % 16)
  {
  }

  /** The upper-case digit of a hex digit's value is that digit in upper case. */
  lemma DigitOfValue(c: char, n: nat)
    requires IsHexDigit(c) && HexValue(c) == n
    ensures n < 16 && HexDigit(n) == ToUpperHex(c)
  {
    UpperDigitUnique(HexDigit(n), ToUpperHex(c));
  }

  /** Byte k of decoded text is the value of digits 2k and 2k+1. */
  lemma DecodedPair(s: string, k: nat)
    requires HexDecode(s).Some? && 2 * k < |s|
    ensures 2 * k + 1 < |s| && IsHexDigit(s[2 * k]) && IsHexDigit(s[2 * k + 1])
    ensures k < |HexDecode(s).value|
    ensures HexDecode(s).value[k] == HexValue(s[2 * k]) * 16 + HexValue(s[2 * k + 1])
  {
    assert HexDecode(s).value[k] == PairValue(s, k);
  }

  /** An upper-case hex digit is determined by its value. */
  lemma UpperDigitUnique(a: char, b: char)
    requires IsUpperHexDigit(a) && IsUpperHexDigit(b) && HexValue(a) == HexValue(b)
    ensures a == b
  {
  }
}
