/**
  What the BTHome v2 parser promises, stated about the functions of module
  BTHomeDecoder that its methods are proved equal to: the header flags, the
  early exits, the encrypted path and its nonce, the MAC text, and the object
  stream (termination, bounds, order, stops and concatenation), the integer
  decode, and two concrete advertisements.
*/
module BTHomeProperties {
  import opened Bytes
  import opened Wrappers
  import opened ObjectTable
  import opened Hex
  import opened BTHomeDecoder

  // ---------------------------------------------------------------------
  // Header and early exits
  // ---------------------------------------------------------------------

  /** Empty service data is not BTHome: every flag is clear and nothing is measured. */
  lemma EmptyServiceData(macString: string, keyHex: string, decrypt: CcmDecrypt)
    ensures var r := Parse([], macString, keyHex, decrypt);
      !r.isBTHome && !r.isBTHomeV2 && r.bthomeVersion == 0 && !r.isEncrypted
      && !r.decryptionSucceeded && !r.isTriggerBased && r.measurements == []
  {
  }

  /**
    Any non-empty service data is BTHome; the flags are bits 0 and 2 of the
    first byte, the version its top three bits, and only version 2 is
    marked as v2 (other versions are still decoded).
  */
  lemma HeaderFlags(serviceData: seq<byte>, macString: string, keyHex: string, decrypt: CcmDecrypt)
    requires |serviceData| >= 1
    ensures var r := Parse(serviceData, macString, keyHex, decrypt);
      var b := serviceData[0];
      r.isBTHome
      && r.isEncrypted == (b % 2 == 1)
      && r.isTriggerBased == ((b / 4) % 2 == 1)
      && r.bthomeVersion == (b / 32) % 8
      && (r.isBTHomeV2 <==> r.bthomeVersion == 2)
  {
  }

  /** A MAC flag without the six MAC bytes, or nothing after the header: no payload is read. */
  lemma NothingAfterHeader(serviceData: seq<byte>, macString: string, keyHex: string, decrypt: CcmDecrypt)
    requires |serviceData| >= 1
    requires (MacFlag(serviceData[0]) && |serviceData| < 7)
          || |serviceData| == (if MacFlag(serviceData[0]) then 7 else 1)
    ensures var r := Parse(serviceData, macString, keyHex, decrypt);
      r == Header(serviceData[0]) && !r.decryptionSucceeded && r.measurements == []
  {
  }

  /**
    `decryptionSucceeded` holds exactly when there is a payload and, if it is
    encrypted, it authenticates; without it nothing is measured.
  */
  lemma DecryptionSucceededIff(serviceData: seq<byte>, macString: string, keyHex: string, decrypt: CcmDecrypt)
    requires |serviceData| >= 1
    ensures var r := Parse(serviceData, macString, keyHex, decrypt);
      r.decryptionSucceeded <==>
        Payload(serviceData).Some?
        && (EncryptionFlag(serviceData[0]) ==>
              DecryptPayload(Payload(serviceData).value, serviceData[0], macString, keyHex, decrypt).Some?)
    ensures var r := Parse(serviceData, macString, keyHex, decrypt);
      !r.decryptionSucceeded ==> r.measurements == []
  {
  }

  /** An unencrypted payload is read as it stands. */
  lemma PlainPayload(serviceData: seq<byte>, macString: string, keyHex: string, decrypt: CcmDecrypt)
    requires |serviceData| >= 1 && !EncryptionFlag(serviceData[0]) && Payload(serviceData).Some?
    ensures Parse(serviceData, macString, keyHex, decrypt)
         == Header(serviceData[0]).(decryptionSucceeded := true, measurements := Objects(Payload(serviceData).value))
  {
  }

  /** The payload starts after the MAC when the MAC flag is set, else right after the first byte. */
  lemma PayloadOffset(serviceData: seq<byte>)
    requires |serviceData| >= 1 && Payload(serviceData).Some?
    ensures MacFlag(serviceData[0]) ==> Payload(serviceData).value == serviceData[7..]
    ensures !MacFlag(serviceData[0]) ==> Payload(serviceData).value == serviceData[1..]
  {
  }

  // ---------------------------------------------------------------------
  // The encrypted path
  // ---------------------------------------------------------------------

  /**
    A key that is not 32 characters, a payload under 8 bytes, or a tag that
    does not authenticate: the header alone, with no measurements.
  */
  lemma EncryptedFailures(serviceData: seq<byte>, macString: string, keyHex: string, decrypt: CcmDecrypt)
    requires |serviceData| >= 1 && EncryptionFlag(serviceData[0]) && Payload(serviceData).Some?
    requires var p := Payload(serviceData).value;
      |keyHex| != 32 || |p| < 8
      || decrypt(KeyBytes(keyHex), Nonce(MacOrZeros(macString), serviceData[0], p[|p| - 8..|p| - 4]),
                 p[..|p| - 4], p[|p| - 4..]).None?
    ensures var r := Parse(serviceData, macString, keyHex, decrypt);
      r == Header(serviceData[0]) && !r.decryptionSucceeded && r.measurements == []
  {
  }

  /**
    A tag that authenticates: the measurements are those of the plaintext,
    and the plaintext is four bytes shorter than the payload.
  */
  lemma EncryptedSuccess(serviceData: seq<byte>, macString: string, keyHex: string, decrypt: CcmDecrypt)
    requires |serviceData| >= 1 && EncryptionFlag(serviceData[0]) && Payload(serviceData).Some?
    requires var p := Payload(serviceData).value;
      |keyHex| == 32 && |p| >= 8
      && decrypt(KeyBytes(keyHex), Nonce(MacOrZeros(macString), serviceData[0], p[|p| - 8..|p| - 4]),
                 p[..|p| - 4], p[|p| - 4..]).Some?
    ensures var p := Payload(serviceData).value;
      var plain := decrypt(KeyBytes(keyHex), Nonce(MacOrZeros(macString), serviceData[0], p[|p| - 8..|p| - 4]),
                           p[..|p| - 4], p[|p| - 4..]).value;
      var r := Parse(serviceData, macString, keyHex, decrypt);
      |plain| == |p| - 4
      && r == Header(serviceData[0]).(decryptionSucceeded := true, measurements := Objects(plain))
  {
  }

  /**
    The ciphertext handed to AES-CCM is everything before the tag, so it
    still ends with the four counter bytes that also went into the nonce.
  */
  lemma CiphertextIncludesCounter(payload: seq<byte>, advInfo: byte, macString: string, keyHex: string,
                                  decrypt: CcmDecrypt)
    requires |keyHex| == 32 && |payload| >= 8
    ensures var n := |payload|;
      var counter := payload[n - 8..n - 4];
      var ciphertext := payload[..n - 4];
      DecryptPayload(payload, advInfo, macString, keyHex, decrypt)
        == decrypt(KeyBytes(keyHex), Nonce(MacOrZeros(macString), advInfo, counter), ciphertext, payload[n - 4..])
      && |ciphertext| >= 4 && ciphertext[|ciphertext| - 4..] == counter
  {
  }

  /** The nonce determines the MAC, the advertisement-info byte and the counter it was built from. */
  lemma NonceInjective(mac1: seq<byte>, advInfo1: byte, counter1: seq<byte>,
                       mac2: seq<byte>, advInfo2: byte, counter2: seq<byte>)
    requires |mac1| == 6 && |counter1| == 4 && |mac2| == 6 && |counter2| == 4
    ensures Nonce(mac1, advInfo1, counter1) == Nonce(mac2, advInfo2, counter2)
        <==> mac1 == mac2 && advInfo1 == advInfo2 && counter1 == counter2
  {
    var n1, n2 := Nonce(mac1, advInfo1, counter1), Nonce(mac2, advInfo2, counter2);
    if n1 == n2 {
      assert mac1 == n1[..6] == n2[..6] == mac2;
      assert counter1 == n1[9..] == n2[9..] == counter2;
    }
  }

  // ---------------------------------------------------------------------
  // MAC text and key text
  // ---------------------------------------------------------------------

  /** A MAC address as text: upper-case byte pairs separated by colons ("A4:C1:38:..."). */
  function ColonHex(bytes: seq<byte>): (s: string)
  {
    if |bytes| <= 1 then HexEncode(bytes)
    else ColonHex(bytes[..|bytes| - 1]) + [':'] + HexPair(bytes[|bytes| - 1])
  }

  /** Collecting hex digits distributes over concatenation. */
  lemma {:induction false} HexDigitsOfAppend(a: string, b: string)
    ensures HexDigitsOf(a + b) == HexDigitsOf(a) + HexDigitsOf(b)
    decreases |b|
  {
    if b == [] {
      assert a + b == a;
    } else {
      var b' := b[..|b| - 1];
      assert (a + b)[..|a + b| - 1] == a + b';
      HexDigitsOfAppend(a, b');
    }
  }

  /** A string of hex digits is kept whole. */
  lemma {:induction false} HexDigitsOfDigits(s: string)
    requires AllHexDigits(s)
    ensures HexDigitsOf(s) == s
    decreases |s|
  {
    if s != [] {
      HexDigitsOfDigits(s[..|s| - 1]);
    }
  }

  /** The colons of a MAC text are dropped and its digits kept. */
  lemma {:induction false} HexDigitsOfColonHex(bytes: seq<byte>)
    ensures HexDigitsOf(ColonHex(bytes)) == HexEncode(bytes)
    decreases |bytes|
  {
    if |bytes| <= 1 {
      EncodeIsUpper(bytes);
      HexDigitsOfDigits(HexEncode(bytes));
    } else {
      var init := bytes[..|bytes| - 1];
      var last := HexPair(bytes[|bytes| - 1]);
      assert ColonHex(bytes) == ColonHex(init) + [':'] + last;
      assert HexEncode(bytes) == HexEncode(init) + last;
      HexDigitsOfColonHex(init);
      HexDigitsOfAppend(ColonHex(init) + [':'], last);
      HexDigitsOfAppend(ColonHex(init), [':']);
      assert HexDigitsOf([':']) == [];
      HexDigitsOfDigits(last);
    }
  }

  /** macStringToBytes reads back the six bytes of a MAC written with colons. */
  lemma MacTextRoundTrip(mac: seq<byte>)
    requires |mac| == 6
    ensures MacBytes(ColonHex(mac)) == Some(mac)
    ensures MacOrZeros(ColonHex(mac)) == mac
  {
    HexDigitsOfColonHex(mac);
    DecodeEncode(mac);
    EncodeIsUpper(mac);
    var e := HexEncode(mac);
    assert forall i :: 0 <= i < |e| ==> IsHexDigit(e[i]);
    assert MacBytes(ColonHex(mac)).value == HexDecode(e).value;
  }

  /** Any string without exactly twelve hex digits gives the all-zero MAC. */
  lemma MacFailureGivesZeros(macStr: string)
    requires |HexDigitsOf(macStr)| != 12
    ensures MacBytes(macStr) == None
    ensures MacOrZeros(macStr) == [0, 0, 0, 0, 0, 0]
  {
  }

  /** A key of 32 hex digits is read as the hex codec reads it. */
  lemma KeyBytesOfHexKey(keyHex: string)
    requires |keyHex| == 32 && AllHexDigits(keyHex)
    ensures HexDecode(keyHex) == Some(KeyBytes(keyHex))
  {
    var d := HexDecode(keyHex).value;
    assert |d| == 16;
    forall i | 0 <= i < 16 ensures d[i] == KeyBytes(keyHex)[i] {
      assert IsHexDigit(keyHex[2 * i]) && IsHexDigit(keyHex[2 * i + 1]);
    }
    assert d == KeyBytes(keyHex);
  }

  // ---------------------------------------------------------------------
  // The object stream
  // ---------------------------------------------------------------------

  /** Where an object's tag byte lies: one byte before its data, or two with a length byte. */
  function TagPosition(s: ObjectSpan): int
  {
    s.start - (if HasLengthByte(s.tag) then 2 else 1)
  }

  /** The loop records one measurement per object it visits, each read from that object's bytes. */
  lemma {:induction false} ObjectsAreSpans(p: seq<byte>, idx: nat)
    ensures |ObjectsFrom(p, idx)| == |Spans(p, idx)|
    ensures forall k :: 0 <= k < |Spans(p, idx)| ==> ObjectsFrom(p, idx)[k] == MeasurementOf(p, Spans(p, idx)[k])
    decreases |p| - idx
  {
    if idx < |p| {
      match NextObject(p, idx)
      case None =>
      case Some(s) =>
        ObjectsAreSpans(p, s.End());
    }
  }

  /**
    Every object the loop records lies inside the payload: its tag byte at
    or after idx and before its data, its data ending within the payload.
  */
  lemma {:induction false} SpansInPayload(p: seq<byte>, idx: nat)
    ensures forall k :: 0 <= k < |Spans(p, idx)| ==>
      idx <= TagPosition(Spans(p, idx)[k]) < Spans(p, idx)[k].start <= Spans(p, idx)[k].End() <= |p|
    ensures forall k :: 0 <= k < |Spans(p, idx)| ==> p[TagPosition(Spans(p, idx)[k])] == Spans(p, idx)[k].tag
    decreases |p| - idx
  {
    if idx < |p| {
      match NextObject(p, idx)
      case None =>
      case Some(s) =>
        SpansInPayload(p, s.End());
        assert Spans(p, idx) == [s] + Spans(p, s.End());
        assert TagPosition(s) == idx;
    }
  }

  /**
    The objects tile the stream in order: the first tag is at idx, each
    further tag sits right after the previous object's data, and the loop
    stops reading at the end of the last object.  In particular the read
    position strictly increases from one object to the next.
  */
  lemma {:induction false} SpansTile(p: seq<byte>, idx: nat)
    ensures |Spans(p, idx)| > 0 ==> TagPosition(Spans(p, idx)[0]) == idx
    ensures forall k :: 0 < k < |Spans(p, idx)| ==> TagPosition(Spans(p, idx)[k]) == Spans(p, idx)[k - 1].End()
    ensures ConsumedEnd(p, idx) == if Spans(p, idx) == [] then idx else Spans(p, idx)[|Spans(p, idx)| - 1].End()
    decreases |p| - idx
  {
    if idx < |p| {
      match NextObject(p, idx)
      case None =>
      case Some(s) =>
        SpansTile(p, s.End());
        assert Spans(p, idx) == [s] + Spans(p, s.End());
        assert TagPosition(s) == idx;
    }
  }

  /** The loop ends only at the end of the payload or at an object it cannot read. */
  lemma {:induction false} LoopStopsAtEndOrStop(p: seq<byte>, idx: nat)
    requires idx <= |p|
    ensures ConsumedEnd(p, idx) == |p| || NextObject(p, ConsumedEnd(p, idx)) == None
    decreases |p| - idx
  {
    if idx < |p| {
      match NextObject(p, idx)
      case None =>
      case Some(s) =>
        LoopStopsAtEndOrStop(p, s.End());
    }
  }

  /** An object's place in a longer stream: its span moved by n bytes. */
  function ShiftSpan(r: Option<ObjectSpan>, n: nat): Option<ObjectSpan>
  {
    match r
    case None => None
    case Some(s) => Some(ObjectSpan(s.tag, s.start + n, s.len))
  }

  /** Bytes in front of a stream do not change how its objects are read. */
  lemma NextObjectShift(a: seq<byte>, c: seq<byte>, i: nat)
    requires i < |c|
    ensures NextObject(a + c, |a| + i) == ShiftSpan(NextObject(c, i), |a|)
    ensures NextObject(c, i).Some? ==>
      MeasurementOf(a + c, ShiftSpan(NextObject(c, i), |a|).value) == MeasurementOf(c, NextObject(c, i).value)
  {
    assert (a + c)[|a| + i] == c[i];
    if i + 1 < |c| {
      assert (a + c)[|a| + i + 1] == c[i + 1];
    }
    if NextObject(c, i).Some? {
      var s := NextObject(c, i).value;
      SliceShift(a, c, s.start, s.End());
    }
  }

  lemma SliceShift(a: seq<byte>, c: seq<byte>, x: nat, y: nat)
    requires x <= y <= |c|
    ensures (a + c)[|a| + x..|a| + y] == c[x..y]
  {
    forall k | 0 <= k < y - x ensures (a + c)[|a| + x..|a| + y][k] == c[x..y][k] {
      assert (a + c)[|a| + x + k] == c[x + k];
    }
  }

  /** Bytes after an object do not change how it is read. */
  lemma NextObjectExtend(a: seq<byte>, c: seq<byte>, i: nat)
    requires i < |a| && NextObject(a, i).Some?
    ensures NextObject(a + c, i) == NextObject(a, i)
    ensures MeasurementOf(a + c, NextObject(a, i).value) == MeasurementOf(a, NextObject(a, i).value)
  {
    var s := NextObject(a, i).value;
    assert (a + c)[i] == a[i];
    if HasLengthByte(a[i]) {
      assert (a + c)[i + 1] == a[i + 1];
    }
    assert (a + c)[s.start..s.End()] == a[s.start..s.End()];
  }

  lemma {:induction false} ObjectsFromShift(a: seq<byte>, c: seq<byte>, i: nat, j: nat)
    requires i <= |c| && j == |a| + i
    ensures ObjectsFrom(a + c, j) == ObjectsFrom(c, i)
    decreases |c| - i
  {
    if i < |c| {
      NextObjectShift(a, c, i);
      match NextObject(c, i)
      case None =>
        ObjectsFromStop(c, i);
        ObjectsFromStop(a + c, j);
      case Some(s) =>
        var t := ObjectSpan(s.tag, s.start + |a|, s.len);
        assert NextObject(a + c, j) == Some(t);
        assert MeasurementOf(a + c, t) == MeasurementOf(c, s);
        ObjectsFromShift(a, c, s.End(), t.End());
        SameStep(a + c, j, t, c, i, s);
    }
  }

  /** Two positions whose objects read alike and whose remainders agree record the same measurements. */
  lemma SameStep(p: seq<byte>, i: nat, s: ObjectSpan, q: seq<byte>, j: nat, t: ObjectSpan)
    requires i < |p| && NextObject(p, i) == Some(s)
    requires j < |q| && NextObject(q, j) == Some(t)
    requires MeasurementOf(p, s) == MeasurementOf(q, t)
    requires ObjectsFrom(p, s.End()) == ObjectsFrom(q, t.End())
    ensures ObjectsFrom(p, i) == ObjectsFrom(q, j)
  {
    ObjectsFromStep(p, i, s);
    ObjectsFromStep(q, j, t);
  }

  lemma {:induction false} ObjectsFromExtend(a: seq<byte>, c: seq<byte>, i: nat)
    requires i <= |a| && ConsumedEnd(a, i) == |a|
    ensures ObjectsFrom(a + c, i) == ObjectsFrom(a, i) + ObjectsFrom(a + c, |a|)
    decreases |a| - i
  {
    if i < |a| {
      var s := NextObject(a, i).value;
      NextObjectExtend(a, c, i);
      ObjectsFromStep(a, i, s);
      ObjectsFromStep(a + c, i, s);
      ObjectsFromExtend(a, c, s.End());
      var m, rest, tail := MeasurementOf(a, s), ObjectsFrom(a, s.End()), ObjectsFrom(a + c, |a|);
      calc {
        ObjectsFrom(a + c, i);
        [m] + ObjectsFrom(a + c, s.End());
        [m] + (rest + tail);
        { AppendAssoc([m], rest, tail); }
        ([m] + rest) + tail;
        ObjectsFrom(a, i) + tail;
      }
    }
  }

  /** Concatenation is associative. */
  lemma AppendAssoc<T>(x: seq<T>, y: seq<T>, z: seq<T>)
    ensures x + (y + z) == (x + y) + z
  {
  }

  /**
    A stream the loop reads to its very end can be followed by any other
    stream: the measurements are those of the first followed by those of
    the second.
  */
  lemma ObjectsConcat(a: seq<byte>, c: seq<byte>)
    requires ConsumedEnd(a, 0) == |a|
    ensures Objects(a + c) == Objects(a) + Objects(c)
  {
    ObjectsFromExtend(a, c, 0);
    ObjectsFromShift(a, c, 0, |a|);
  }

  /**
    A stop keeps everything collected before it: when the objects of a are
    followed by an object the loop cannot read, the result is the
    measurements of a, whatever comes after.
  */
  lemma StopKeepsCollected(a: seq<byte>, c: seq<byte>)
    requires ConsumedEnd(a, 0) == |a| && |c| > 0 && NextObject(c, 0) == None
    ensures Objects(a + c) == Objects(a)
  {
    ObjectsConcat(a, c);
    assert Objects(a) + [] == Objects(a);
  }

  /** A tag of unknown length stops the loop, wherever it is. */
  lemma UnknownTagStops(t: byte, rest: seq<byte>)
    requires !HasLengthByte(t) && ObjectDataLength(t) < 0
    ensures NextObject([t] + rest, 0) == None
  {
  }

  /** A tag whose data runs past the end stops the loop. */
  lemma ShortDataStops(c: seq<byte>)
    requires |c| > 0 && !HasLengthByte(c[0]) && ObjectDataLength(c[0]) >= |c|
    ensures NextObject(c, 0) == None
  {
  }

  /** A length-byte tag whose declared length runs past the end, or that lacks its length byte, stops the loop. */
  lemma ShortLengthByteStops(c: seq<byte>)
    requires |c| > 0 && HasLengthByte(c[0]) && (|c| == 1 || 2 + c[1] > |c|)
    ensures NextObject(c, 0) == None
  {
  }

  /** Every recorded measurement is valid and carries the table's factor, name and unit for its tag. */
  lemma {:induction false} MeasurementsFollowTable(p: seq<byte>, idx: nat)
    ensures forall m :: m in ObjectsFrom(p, idx) ==>
      m.isValid && m.factor == ObjectFactor(m.objectId)
      && m.name == ObjectName(m.objectId) && m.unit == ObjectUnit(m.objectId)
    decreases |p| - idx
  {
    if idx < |p| {
      match NextObject(p, idx)
      case None =>
      case Some(s) =>
        MeasurementsFollowTable(p, s.End());
    }
  }

  // ---------------------------------------------------------------------
  // Integer decode
  // ---------------------------------------------------------------------

  /** parseUnsignedLittle is the little-endian number for widths 1 to 4 and 0 otherwise. */
  lemma UnsignedIsLittleEndian(data: seq<byte>)
    ensures 1 <= |data| <= 4 ==> UnsignedLittle(data) == LittleEndian(data)
    ensures (|data| == 0 || |data| > 4) ==> UnsignedLittle(data) == 0
  {
    if 1 <= |data| <= 4 {
      var n := |data|;
      assert LittleEndian(data[n..]) == 0;
      if n >= 4 { assert data[3..][1..] == data[4..]; }
      if n >= 3 { assert data[2..][1..] == data[3..]; }
      if n >= 2 { assert data[1..][1..] == data[2..]; }
    }
  }

  /**
    parseSignedLittle is the two's-complement reading of the little-endian
    number for widths 1, 2 and 4; the 3-byte value is not sign-extended, so
    it is never negative; other widths give 0.
  */
  lemma SignedIsTwosComplement(data: seq<byte>)
    ensures |data| == 1 ==>
      SignedLittle(data) == (if LittleEndian(data) >= 0x80 then LittleEndian(data) - 0x100 else LittleEndian(data))
    ensures |data| == 2 ==>
      SignedLittle(data) == (if LittleEndian(data) >= 0x8000 then LittleEndian(data) - 0x1_0000 else LittleEndian(data))
    ensures |data| == 3 ==> SignedLittle(data) == LittleEndian(data) >= 0
    ensures |data| == 4 ==>
      SignedLittle(data) == (if LittleEndian(data) >= 0x8000_0000 then LittleEndian(data) - 0x1_0000_0000 else LittleEndian(data))
    ensures (|data| == 0 || |data| > 4) ==> SignedLittle(data) == 0
  {
    UnsignedIsLittleEndian(data);
  }

  // ---------------------------------------------------------------------
  // Two advertisements
  // ---------------------------------------------------------------------

  /** 40 02 E8 00: unencrypted version 2 with one temperature of 232 x 0.01 = 2.32 degrees Celsius. */
  lemma TemperatureExample(macString: string, keyHex: string, decrypt: CcmDecrypt)
    ensures var r := Parse([0x40, 0x02, 0xE8, 0x00], macString, keyHex, decrypt);
      r.isBTHome && r.isBTHomeV2 && r.bthomeVersion == 2 && !r.isEncrypted && r.decryptionSucceeded
      && r.measurements == [Measurement(0x02, 232, 0.01, "temperature", "°C", true)]
      && r.measurements[0].Value() == 2.32
  {
    var p: seq<byte> := [0x02, 0xE8, 0x00];
    assert Payload([0x40, 0x02, 0xE8, 0x00]) == Some(p);
    assert NextObject(p, 0) == Some(ObjectSpan(0x02, 1, 2));
    assert p[1..3] == [0xE8, 0x00];
    assert Objects(p) == [MeasurementOf(p, ObjectSpan(0x02, 1, 2))] + ObjectsFrom(p, 3);
  }

  /** 41 02 E8 00 with a key that is not 32 characters: encrypted BTHome that is not decrypted. */
  lemma EncryptedBadKeyExample(macString: string, decrypt: CcmDecrypt)
    ensures var r := Parse([0x41, 0x02, 0xE8, 0x00], macString, "0011", decrypt);
      r.isBTHome && r.isEncrypted && !r.decryptionSucceeded && r.measurements == []
  {
  }
}
