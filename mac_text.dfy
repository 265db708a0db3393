/**
  The MAC text `BLEScanner::process` copies out, for an advertisement whose
  address has the usual colon-separated form of BLEAddress::toString.
*/
module MacText {
  import opened Bytes
  import opened Json
  import opened Hex
  import opened Dispatch
  import opened BTHomeProperties

  /** Every character of a colon-separated MAC text is an upper-case hex digit or a colon. */
  lemma {:induction false} ColonHexCharacters(bytes: seq<byte>)
    ensures var s := ColonHex(bytes);
      forall i :: 0 <= i < |s| ==> IsUpperHexDigit(s[i]) || s[i] == ':'
    decreases |bytes|
  {
    if |bytes| <= 1 {
      EncodeIsUpper(bytes);
    } else {
      var init := bytes[..|bytes| - 1];
      ColonHexCharacters(init);
      assert ColonHex(bytes)
          == ColonHex(init) + [':'] + HexPair(bytes[|bytes| - 1]);
    }
  }

  /** Upper-casing a colon-separated MAC text changes nothing. */
  lemma UpperAsciiOfColonHex(bytes: seq<byte>)
    ensures UpperAscii(ColonHex(bytes)) == ColonHex(bytes)
  {
    ColonHexCharacters(bytes);
  }

  /** Stripping the colons of a MAC text leaves the hex text of its bytes. */
  lemma {:induction false} StripColonsOfColonHex(bytes: seq<byte>)
    ensures StripColons(ColonHex(bytes)) == HexEncode(bytes)
    decreases |bytes|
  {
    if |bytes| <= 1 {
      EncodeIsUpper(bytes);
      StripColonsNoColon(HexEncode(bytes));
    } else {
      var init := bytes[..|bytes| - 1];
      var last := HexPair(bytes[|bytes| - 1]);
      assert ColonHex(bytes) == ColonHex(init) + [':'] + last;
      assert HexEncode(bytes) == HexEncode(init) + last;
      StripColonsOfColonHex(init);
      StripColonsAppend(ColonHex(init) + [':'], last);
      StripColonsAppend(ColonHex(init), [':']);
      assert StripColons([':']) == [];
      StripColonsNoColon(last);
    }
  }

  /**
    For an advertisement whose address, once upper-cased, is the
    colon-separated hex text of its bytes (written in either case, as
    BLEAddress::toString gives it), the MAC text `process` copies out is
    the twelve (for a six-byte address) upper-case hex digits of those bytes.
  */
  lemma MacTextOfAddress(adv: Advertisement, time: real, bytes: seq<byte>)
    requires UpperAscii(adv.address) == ColonHex(bytes)
    ensures StripColons(AsText(Get(RawDoc(adv, time), Mac))) == HexEncode(bytes)
    ensures |bytes| == 6 ==> |StripColons(AsText(Get(RawDoc(adv, time), Mac)))| == 12
  {
    RawDocMembers(adv, time);
    RawDocValues(adv, time);
    UpperAsciiOfColonHex(bytes);
    StripColonsOfColonHex(bytes);
  }

}
