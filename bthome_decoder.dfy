/**
  The BTHome v2 service-data parser of lib/BTHomeDecoder/BTHomeDecoder.cpp.

  `ParseBTHomeV2` reads the advertisement-info byte, optionally skips an
  embedded MAC, optionally authenticates and decrypts the payload with
  AES-CCM (a 13-byte nonce, a 4-byte tag, no additional data), and then walks
  the tag/length object stream with the lookups of module ObjectTable.

  The imperative code is modelled by methods (the object loop, the key loop,
  `macStringToBytes`, the nonce `memcpy`s of `decryptAESCCM`); each is proved
  equal to a function of its inputs (`Parse`, `MacBytes`, `CcmOpen`), and the
  properties the decoder promises are lemmas about those functions (module
  BTHomeProperties).  AES-CCM itself is the parameter `decrypt`.
*/
module BTHomeDecoder {
  import opened Bytes
  import opened Wrappers
  import opened ObjectTable
  import opened Hex

  /**
    AES-CCM authenticated decryption (mbedtls_ccm_auth_decrypt with a 128-bit
    key): key, nonce, ciphertext and tag give the plaintext, or nothing when
    the tag does not authenticate.  CCM's plaintext has the ciphertext's length.
  */
  type CcmDecrypt = f: (seq<byte>, seq<byte>, seq<byte>, seq<byte>) -> Option<seq<byte>>
    | forall key, nonce, ct, mic :: f(key, nonce, ct, mic).Some? ==> |f(key, nonce, ct, mic).value| == |ct|
    witness (key: seq<byte>, nonce: seq<byte>, ct: seq<byte>, mic: seq<byte>) => None

  /** BTHomeMeasurement; the float value is kept as raw integer and exact factor. */
  datatype Measurement = Measurement(objectId: byte, raw: int, factor: real, name: string, unit: string, isValid: bool)
  {
    /** The value the source stores as `raw * factor`, computed exactly. */
    function Value(): real
    {
      raw as real * factor
    }
  }

  /** BTHomeDecodeResult. */
  datatype DecodeResult = DecodeResult(
    isBTHome: bool,
    isBTHomeV2: bool,
    bthomeVersion: nat,
    isEncrypted: bool,
    decryptionSucceeded: bool,
    isTriggerBased: bool,
    measurements: seq<Measurement>)

  /** The result `parseBTHomeV2` starts from: nothing recognised. */
  const NotBTHome := DecodeResult(false, false, 0, false, false, false, [])

  // ---------------------------------------------------------------------
  // The advertisement-info byte
  // ---------------------------------------------------------------------

  /** bit 0: the payload is encrypted. */
  predicate EncryptionFlag(advInfo: byte) { advInfo % 2 == 1 }

  /** bit 1: a 6-byte MAC follows the advertisement-info byte. */
  predicate MacFlag(advInfo: byte) { (advInfo / 2) % 2 == 1 }

  /** bit 2: the device sends on trigger rather than at a fixed interval. */
  predicate TriggerFlag(advInfo: byte) { (advInfo / 4) % 2 == 1 }

  /** bits 7..5: the format version, `(advInfo >> 5) & 0x07`. */
  function Version(advInfo: byte): (v: nat)
    ensures v < 8
  {
    (advInfo / 32) % 8
  }

  /** The flags `parseBTHomeV2` records before it looks at the payload. */
  function Header(advInfo: byte): (r: DecodeResult)
  {
    DecodeResult(true, Version(advInfo) == 2, Version(advInfo), EncryptionFlag(advInfo), false, TriggerFlag(advInfo), [])
  }

  // ---------------------------------------------------------------------
  // Little-endian integers (parseUnsignedLittle / parseSignedLittle)
  // ---------------------------------------------------------------------

  /** The little-endian number of any byte string: the sum of data[i] * 256^i. */
  function LittleEndian(data: seq<byte>): (r: nat)
    ensures r < Pow256(|data|)
  {
    if data == [] then 0 else data[0] + 256 * LittleEndian(data[1..])
  }

  /** parseUnsignedLittle without the factor: widths 1 to 4, anything else is 0. */
  function UnsignedLittle(data: seq<byte>): (r: nat)
  {
    if |data| == 1 then data[0]
    else if |data| == 2 then data[1] as int * 0x100 + data[0]
    else if |data| == 3 then data[2] as int * 0x1_0000 + data[1] as int * 0x100 + data[0]
    else if |data| == 4 then data[3] as int * 0x100_0000 + data[2] as int * 0x1_0000 + data[1] as int * 0x100 + data[0]
    else 0
  }

  /**
    parseSignedLittle without the factor.  Widths 1, 2 and 4 are cast to
    int8_t, int16_t and int32_t; the 3-byte value is put into an int32_t
    unchanged, so it is never negative.
  */
  function SignedLittle(data: seq<byte>): (r: int)
  {
    if |data| == 1 then AsInt8(data[0])
    else if |data| == 2 then AsInt16(data[1] as int * 0x100 + data[0])
    else if |data| == 3 then data[2] as int * 0x1_0000 + data[1] as int * 0x100 + data[0]
    else if |data| == 4 then AsInt32(data[3] as int * 0x100_0000 + data[2] as int * 0x1_0000 + data[1] as int * 0x100 + data[0])
    else 0
  }

  // ---------------------------------------------------------------------
  // The object stream
  // ---------------------------------------------------------------------

  /** Where one object's data lies in the payload: its tag, first data byte and length. */
  datatype ObjectSpan = ObjectSpan(tag: byte, start: nat, len: nat)
  {
    function End(): nat { start + len }
  }

  /**
    The object whose tag is at idx, or None where the loop stops: an unknown
    tag, a declared length running past the payload, or a length-byte tag
    with no length byte left.
  */
  function NextObject(p: seq<byte>, idx: nat): (r: Option<ObjectSpan>)
    requires idx < |p|
    ensures r.Some? ==> r.value.tag == p[idx] && idx < r.value.start && r.value.End() <= |p|
    ensures r.Some? && HasLengthByte(p[idx]) ==> r.value.start == idx + 2 && r.value.len == p[idx + 1]
    ensures r.Some? && !HasLengthByte(p[idx]) ==> r.value.start == idx + 1 && r.value.len == ObjectDataLength(p[idx])
  {
    var tag := p[idx];
    if HasLengthByte(tag) then
      if idx + 1 >= |p| then None
      else if idx + 2 + p[idx + 1] > |p| then None
      else Some(ObjectSpan(tag, idx + 2, p[idx + 1]))
    else
      var len := ObjectDataLength(tag);
      if len < 0 then None
      else if idx + 1 + len > |p| then None
      else Some(ObjectSpan(tag, idx + 1, len))
  }

  /** The measurement the loop records for an object. */
  function MeasurementOf(p: seq<byte>, s: ObjectSpan): (m: Measurement)
    requires s.End() <= |p|
  {
    var data := p[s.start..s.End()];
    Measurement(s.tag,
                if ObjectSigned(s.tag) then SignedLittle(data) else UnsignedLittle(data),
                ObjectFactor(s.tag), ObjectName(s.tag), ObjectUnit(s.tag), true)
  }

  /** The measurements the object loop records when it reaches idx. */
  function ObjectsFrom(p: seq<byte>, idx: nat): (ms: seq<Measurement>)
    decreases |p| - idx
  {
    if idx >= |p| then []
    else match NextObject(p, idx)
      case None => []
      case Some(s) => [MeasurementOf(p, s)] + ObjectsFrom(p, s.End())
  }

  /** The measurements of a whole (plaintext) payload. */
  function Objects(p: seq<byte>): seq<Measurement>
  {
    ObjectsFrom(p, 0)
  }

  /** The objects the loop visits from idx on, as positions in the payload. */
  function Spans(p: seq<byte>, idx: nat): (spans: seq<ObjectSpan>)
    ensures forall k :: 0 <= k < |spans| ==> idx < spans[k].start && spans[k].End() <= |p|
    decreases |p| - idx
  {
    if idx >= |p| then []
    else match NextObject(p, idx)
      case None => []
      case Some(s) => [s] + Spans(p, s.End())
  }

  /** Where the loop stops reading: the end of the last object it recorded. */
  function ConsumedEnd(p: seq<byte>, idx: nat): (e: nat)
    ensures idx <= e
    ensures idx <= |p| ==> e <= |p|
    decreases |p| - idx
  {
    if idx >= |p| then idx
    else match NextObject(p, idx)
      case None => idx
      case Some(s) => ConsumedEnd(p, s.End())
  }

  // ---------------------------------------------------------------------
  // Key, MAC and nonce
  // ---------------------------------------------------------------------

  /** The C locale's isspace. */
  predicate IsSpace(c: char)
  {
    c == ' ' || c == '\t' || c == '\n' || c == '\r' || c == '\U{000B}' || c == '\U{000C}'
  }

  /**
    `(uint8_t)strtol(s, nullptr, 16)` of the two-character string c1 c2:
    leading white space and one sign are accepted, parsing stops at the
    first non-digit, and the long result is truncated to 8 bits.
  */
  function KeyByte(c1: char, c2: char): (b: byte)
    ensures IsHexDigit(c1) && IsHexDigit(c2) ==> b == HexValue(c1) * 16 + HexValue(c2)
  {
    if IsHexDigit(c1) then
      if IsHexDigit(c2) then HexValue(c1) * 16 + HexValue(c2) else HexValue(c1)
    else if IsSpace(c1) || c1 == '+' then
      if IsHexDigit(c2) then HexValue(c2) else 0
    else if c1 == '-' then
      if IsHexDigit(c2) then (0x100 - HexValue(c2)) % 0x100 else 0
    else 0
  }

  /** The 16 key bytes read from a 32-character key string. */
  function KeyBytes(keyHex: string): (key: seq<byte>)
    requires |keyHex| == 32
    ensures |key| == 16
  {
    seq(16, i requires 0 <= i < 16 => KeyByte(keyHex[2 * i], keyHex[2 * i + 1]))
  }

  /** The hex digits of s, in order: the `cleaned` string of macStringToBytes. */
  function HexDigitsOf(s: string): (r: string)
    ensures |r| <= |s|
    ensures forall i :: 0 <= i < |r| ==> IsHexDigit(r[i])
  {
    if s == [] then []
    else HexDigitsOf(s[..|s| - 1]) + (if IsHexDigit(s[|s| - 1]) then [s[|s| - 1]] else [])
  }

  /** macStringToBytes: the six bytes of a MAC string, or None unless it has exactly 12 hex digits. */
  function MacBytes(macStr: string): (r: Option<seq<byte>>)
    ensures r.Some? <==> |HexDigitsOf(macStr)| == 12
    ensures r.Some? ==> |r.value| == 6
  {
    var cleaned := HexDigitsOf(macStr);
    if |cleaned| != 12 then None
    else Some(seq(6, i requires 0 <= i < 6 => PairValue(cleaned, i)))
  }

  /** The MAC used in the nonce: the parsed MAC, or six zero bytes when parsing fails. */
  function MacOrZeros(macStr: string): (mac: seq<byte>)
    ensures |mac| == 6
  {
    MacBytes(macStr).GetOr([0, 0, 0, 0, 0, 0])
  }

  /** The BTHome nonce: mac(6) ++ 0xD2 0xFC ++ advInfo ++ counter(4). */
  function Nonce(mac: seq<byte>, advInfo: byte, counter: seq<byte>): (n: seq<byte>)
    requires |mac| == 6 && |counter| == 4
    ensures |n| == 13
    ensures n[..6] == mac && n[6] == 0xD2 && n[7] == 0xFC && n[8] == advInfo && n[9..] == counter
  {
    mac + [0xD2, 0xFC, advInfo] + counter
  }

  /**
    decryptAESCCM: the last 4 bytes of `ciphertext` are the tag and all the
    bytes before them are deciphered.
  */
  function CcmOpen(ciphertext: seq<byte>, mac: seq<byte>, advInfo: byte, key: seq<byte>,
                   counter: seq<byte>, decrypt: CcmDecrypt): (r: Option<seq<byte>>)
    requires |mac| == 6 && |counter| == 4
    ensures r.Some? ==> |ciphertext| >= 4 && |r.value| == |ciphertext| - 4
  {
    if |ciphertext| < 4 then None
    else
      var rawCipherLen := |ciphertext| - 4;
      decrypt(key, Nonce(mac, advInfo, counter), ciphertext[..rawCipherLen], ciphertext[rawCipherLen..])
  }

  /**
    The encrypted branch of parseBTHomeV2: a 32-character key, at least 8
    payload bytes, and a tag that authenticates.  The counter is the four
    bytes before the tag, but the whole payload is handed to decryptAESCCM.
  */
  function DecryptPayload(payload: seq<byte>, advInfo: byte, macString: string, keyHex: string,
                          decrypt: CcmDecrypt): (r: Option<seq<byte>>)
  {
    if |keyHex| != 32 || |payload| < 8 then None
    else
      var totalLen := |payload|;
      CcmOpen(payload, MacOrZeros(macString), advInfo, KeyBytes(keyHex),
              payload[totalLen - 8..totalLen - 4], decrypt)
  }

  /** The payload: what follows the advertisement-info byte and the MAC, if anything does. */
  function Payload(serviceData: seq<byte>): (r: Option<seq<byte>>)
    requires |serviceData| >= 1
    ensures r.Some? ==> |r.value| >= 1
  {
    var index := if MacFlag(serviceData[0]) then 7 else 1;
    if MacFlag(serviceData[0]) && |serviceData| < 7 then None
    else if index >= |serviceData| then None
    else Some(serviceData[index..])
  }

  /** What parseBTHomeV2 returns. */
  function Parse(serviceData: seq<byte>, macString: string, keyHex: string, decrypt: CcmDecrypt): (r: DecodeResult)
  {
    if |serviceData| < 1 then NotBTHome
    else
      var advInfo := serviceData[0];
      var header := Header(advInfo);
      match Payload(serviceData)
      case None => header
      case Some(payload) =>
        if EncryptionFlag(advInfo) then
          match DecryptPayload(payload, advInfo, macString, keyHex, decrypt)
          case None => header
          case Some(plaintext) => header.(decryptionSucceeded := true, measurements := Objects(plaintext))
        else header.(decryptionSucceeded := true, measurements := Objects(payload))
  }

  // ---------------------------------------------------------------------
  // The imperative code
  // ---------------------------------------------------------------------

  /** macStringToBytes: collect the hex digits, then read six pairs. */
  method MacStringToBytes(macStr: string) returns (ok: bool, macOut: seq<byte>)
    ensures ok <==> |HexDigitsOf(macStr)| == 12
    ensures ok ==> |macOut| == 6 && forall i :: 0 <= i < 6 ==> macOut[i] == PairValue(HexDigitsOf(macStr), i)
    ensures ok ==> MacBytes(macStr) == Some(macOut)
  {
    var cleaned := "";
    for i := 0 to |macStr|
      invariant cleaned == HexDigitsOf(macStr[..i])
    {
      assert macStr[..i + 1][..i] == macStr[..i];
      if IsHexDigit(macStr[i]) {
        cleaned := cleaned + [macStr[i]];
      }
    }
    assert macStr[..|macStr|] == macStr;
    if |cleaned| != 12 {
      return false, [];
    }
    var out := new byte[6];
    for i := 0 to 6
      invariant forall k :: 0 <= k < i ==> out[k] == PairValue(cleaned, k)
    {
      out[i] := KeyByte(cleaned[i * 2], cleaned[i * 2 + 1]);
    }
    assert out[..] == MacBytes(macStr).value;
    ok, macOut := true, out[..];
  }

  /** decryptAESCCM: build the nonce in place, split off the tag and decipher. */
  method DecryptAesCcm(ciphertext: seq<byte>, macBytes: seq<byte>, advInfo: byte, key: seq<byte>,
                       counter: seq<byte>, decrypt: CcmDecrypt) returns (ok: bool, plaintext: seq<byte>)
    requires |macBytes| == 6 && |counter| == 4
    ensures ok ==> |plaintext| == |ciphertext| - 4
    ensures ok <==> CcmOpen(ciphertext, macBytes, advInfo, key, counter, decrypt).Some?
    ensures ok ==> plaintext == CcmOpen(ciphertext, macBytes, advInfo, key, counter, decrypt).value
  {
    var nonce := new byte[13];
    for i := 0 to 6
      invariant forall k :: 0 <= k < i ==> nonce[k] == macBytes[k]
    {
      nonce[i] := macBytes[i];
    }
    nonce[6] := 0xD2;
    nonce[7] := 0xFC;
    nonce[8] := advInfo;
    for i := 0 to 4
      invariant forall k :: 0 <= k < 6 ==> nonce[k] == macBytes[k]
      invariant nonce[6] == 0xD2 && nonce[7] == 0xFC && nonce[8] == advInfo
      invariant forall k :: 0 <= k < i ==> nonce[9 + k] == counter[k]
    {
      nonce[9 + i] := counter[i];
    }
    assert nonce[..] == Nonce(macBytes, advInfo, counter);
    if |ciphertext| < 4 {
      return false, [];
    }
    var micLen := 4;
    var rawCipherLen := |ciphertext| - micLen;
    var deciphered := decrypt(key, nonce[..], ciphertext[..rawCipherLen], ciphertext[rawCipherLen..]);
    if deciphered.None? {
      return false, [];
    }
    ok, plaintext := true, deciphered.value;
  }

  /** One step of the loop: a recorded object, then the rest of the stream. */
  lemma ObjectsFromStep(p: seq<byte>, at: nat, s: ObjectSpan)
    requires at < |p| && NextObject(p, at) == Some(s)
    ensures ObjectsFrom(p, at) == [MeasurementOf(p, s)] + ObjectsFrom(p, s.End())
  {
  }

  /** At a stop the loop records nothing more. */
  lemma ObjectsFromStop(p: seq<byte>, at: nat)
    requires at < |p| && NextObject(p, at) == None
    ensures ObjectsFrom(p, at) == []
  {
  }

  /**
    The body of the object loop of parseBTHomeV2 for the tag at idx: take the
    length from the stream or the table, stop (found is false) on an unknown
    tag or missing bytes, otherwise build the measurement and return the
    index just past its data.
  */
  method ReadObject(payload: seq<byte>, idx0: nat) returns (found: bool, meas: Measurement, next: nat)
    requires idx0 < |payload|
    ensures found <==> NextObject(payload, idx0).Some?
    ensures found ==> meas == MeasurementOf(payload, NextObject(payload, idx0).value)
    ensures found ==> next == NextObject(payload, idx0).value.End() && idx0 < next <= |payload|
  {
    meas := Measurement(0, 0, 1.0, "unknown", "", false);
    next := idx0;
    var idx := idx0;
    var objID := payload[idx];
    idx := idx + 1;
    var dataLen: int;
    if HasLengthByte(objID) {
      // The source reads payload[idx] unchecked here; the model stops instead.
      if idx >= |payload| {
        return false, meas, next;
      }
      dataLen := payload[idx];
      idx := idx + 1;
    } else {
      dataLen := ObjectDataLength(objID);
    }
    if dataLen < 0 {
      return false, meas, next;
    }
    if idx + dataLen > |payload| {
      return false, meas, next;
    }
    var factor := ObjectFactor(objID);
    var isSigned := ObjectSigned(objID);
    var raw: int;
    if isSigned {
      raw := SignedLittle(payload[idx..idx + dataLen]);
    } else {
      raw := UnsignedLittle(payload[idx..idx + dataLen]);
    }
    meas := Measurement(objID, raw, factor, ObjectName(objID), ObjectUnit(objID), true);
    found, next := true, idx + dataLen;
  }

  /**
    The object loop of parseBTHomeV2: read objects one after the other until
    the payload ends or an object cannot be read, keeping every measurement
    recorded before the stop.
  */
  method ParseObjectStream(payload: seq<byte>) returns (measurements: seq<Measurement>)
    ensures measurements == Objects(payload)
  {
    measurements := [];
    var idx := 0;
    while idx < |payload|
      invariant idx <= |payload|
      invariant measurements + ObjectsFrom(payload, idx) == Objects(payload)
      decreases |payload| - idx
    {
      var found, meas, next := ReadObject(payload, idx);
      if !found {
        ObjectsFromStop(payload, idx);
        break;
      }
      ObjectsFromStep(payload, idx, NextObject(payload, idx).value);
      assert (measurements + [meas]) + ObjectsFrom(payload, next) == measurements + ObjectsFrom(payload, idx);
      measurements := measurements + [meas];
      idx := next;
    }
  }

  /**
    The encrypted branch of parseBTHomeV2: check the key length, read the
    key and the MAC, take the counter from the last eight bytes, and
    decrypt.
  */
  method DecryptStage(payload: seq<byte>, advInfo: byte, macString: string, keyHex: string, decrypt: CcmDecrypt)
    returns (ok: bool, plaintext: seq<byte>)
    ensures ok <==> DecryptPayload(payload, advInfo, macString, keyHex, decrypt).Some?
    ensures ok ==> plaintext == DecryptPayload(payload, advInfo, macString, keyHex, decrypt).value
  {
    if |keyHex| != 32 {
      return false, [];
    }
    var key := new byte[16];
    for i := 0 to 16
      invariant forall k :: 0 <= k < i ==> key[k] == KeyByte(keyHex[2 * k], keyHex[2 * k + 1])
    {
      key[i] := KeyByte(keyHex[i * 2], keyHex[i * 2 + 1]);
    }
    assert key[..] == KeyBytes(keyHex);

    var macOk, macBytes := MacStringToBytes(macString);
    if !macOk {
      macBytes := [0, 0, 0, 0, 0, 0];
    }
    assert macBytes == MacOrZeros(macString);

    if |payload| < 8 {
      return false, [];
    }
    var totalLen := |payload|;
    var offsetCounter := totalLen - 8;
    var counter := payload[offsetCounter..offsetCounter + 4];
    ok, plaintext := DecryptAesCcm(payload, macBytes, advInfo, key[..], counter, decrypt);
  }

  /** parseBTHomeV2. */
  method ParseBTHomeV2(serviceData: seq<byte>, macString: string, keyHex: string, decrypt: CcmDecrypt)
    returns (result: DecodeResult)
    ensures result == Parse(serviceData, macString, keyHex, decrypt)
  {
    result := NotBTHome;
    if |serviceData| < 1 {
      return;
    }
    var advInfo := serviceData[0];
    var encryptionFlag := advInfo % 2 == 1;
    var hasMac := (advInfo / 2) % 2 == 1;
    var triggerBased := (advInfo / 4) % 2 == 1;
    var version := (advInfo / 32) % 8;

    result := result.(isBTHome := true, bthomeVersion := version,
                      isEncrypted := encryptionFlag, isTriggerBased := triggerBased);
    if version == 2 {
      result := result.(isBTHomeV2 := true);
    }
    assert result == Header(advInfo);

    var index := 1;
    if hasMac {
      if |serviceData| < 7 {
        return;
      }
      index := index + 6;
    }
    if index >= |serviceData| {
      return;
    }
    var payload := serviceData[index..];
    assert Payload(serviceData) == Some(payload);

    if encryptionFlag {
      var ok, plaintext := DecryptStage(payload, advInfo, macString, keyHex, decrypt);
      if !ok {
        return;
      }
      result := result.(decryptionSucceeded := true);
      payload := plaintext;
    } else {
      result := result.(decryptionSucceeded := true);
    }

    var measurements := ParseObjectStream(payload);
    result := result.(measurements := measurements);
  }
}
