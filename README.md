# BLE scanner core: BTHome v2 parser, vendor decoders, dispatcher and counters

This project is a Dafny model of the decoding core of an ESP32 Bluetooth Low
Energy gateway. The gateway's scan callback turns each advertisement into a
small "raw" JSON document: MAC, RSSI, name, manufacturer data as hex,
service-data UUID and bytes as hex, transmit power and time. It queues that
document in a FreeRTOS ring buffer. `BLEScanner::process` later takes one
document out and hands it to `deliver`, which picks a decoder:

- a service-data UUID containing `fcd2` routes to the BTHome v2 parser
  (`BTHomeDecoder::parseBTHomeV2`);
- otherwise the first two bytes of the manufacturer data (little-endian)
  select one of seven vendor decoders: Ruuvi, Mopeka, two TPMS sensors,
  Otodata, Rotarex and Mikrotik.

`process` merges the raw metadata into a decoded document, strips the colons
from the MAC text, copies it into the caller's buffer, and counts records
received and decoded. The scan callback counts failed reservations and failed
commits.

The modules follow the source:

| module | file | models |
|---|---|---|
| `Bytes` | bytes.dfy | the byte readers of src/BLEScanner.cpp |
| `Hex` | hex.dfy | `hexStringToVector`, `bytesToHexString` |
| `ObjectTable` | object_table.dfy | the BTHome object tables (length, factor, signedness, unit, name) |
| `BTHomeDecoder` | bthome_decoder.dfy | `parseBTHomeV2`, `macStringToBytes`, the nonce of `decryptAESCCM`, the integer readers |
| `BTHomeProperties` | bthome_properties.dfy | what the parser promises: header flags, failure paths, nonce layout, the object loop |
| `Json` | json.dfy | the JSON documents |
| `VendorDecoders` | vendor_decoders.dfy | `volt2percent`, the seven decoders and `decodeBTHome` |
| `Dispatch` | dispatch.dfy | the raw document, `deliver`, and the output merge of `process` |
| `MacText` | mac_text.dfy | the MAC text `process` copies out |
| `RingBuffers` | ring_buffer.dfy | the `espidf::RingBuffer` as the scanner uses it |
| `Scanner` | ble_scanner.dfy | `BLEScanner::Impl` and its counters: `onResult`, `process`, `stats`, `begin`, `setBTHomeKey` |

Modelling choices:

- **Flavour.** Code that loops or mutates in the source is a method with
  loop invariants, proved equal to a specification function. This covers the
  hex codec, the MAC parse, the BTHome object loop, the key-byte loop, the MAC
  copy of `process`, and the scanner and queue state. The lookup tables, byte
  readers and decoders are functions.
- **Values.** Every float is an exact real. A BTHome measurement is its raw
  integer and its exact factor.
- **Counters.** They are 32-bit and wrap. Ghost unbounded totals carry the
  invariant that no more records are decoded than received.
- **AES-CCM.** Decryption is a function parameter `decrypt(key, nonce,
  ciphertext, mic)`. It either fails or returns a plaintext as long as the
  ciphertext.

## Model

| member | source | states |
|---|---|---|
| Bytes.Pow256 | src/BLEScanner.cpp:41-69 | 256^n is positive (the weight of byte n in the little-endian readers) |
| Bytes.AsInt8 | src/BLEScanner.cpp:71-73 | the `(int8_t)` cast: a value in [-128, 128) congruent to the byte mod 256, negative exactly when the top bit is set |
| Bytes.AsInt16 | src/BLEScanner.cpp:41-43 | the `(int16_t)` cast: a value in [-2^15, 2^15) congruent mod 2^16, negative exactly when bit 15 is set |
| Bytes.AsInt32 | src/BLEScanner.cpp:45-50 | the `(int32_t)` cast: a value in [-2^31, 2^31) congruent mod 2^32, negative exactly when bit 31 is set |
| Bytes.Int8 | src/BLEScanner.cpp:71-73 | getInt8 is the byte reinterpreted as a signed 8-bit value |
| Bytes.Uint8 | src/BLEScanner.cpp:75-77 | defines the byte at an index; the index is required to be in range |
| Bytes.Uint16LE | src/BLEScanner.cpp:52-54 | getUint16LE: the low byte is data[index], the high byte data[index+1] |
| Bytes.Uint16BE | src/BLEScanner.cpp:60-62 | getUint16BE: the high byte is data[index], the low byte data[index+1] |
| Bytes.Uint32LE | src/BLEScanner.cpp:64-69 | getUint32LE: its low half is the 16-bit word at index, its high half the word at index+2 |
| Bytes.Int16LE | src/BLEScanner.cpp:41-43 | getInt16LE is the two's-complement reading of getUint16LE |
| Bytes.Int16BE | src/BLEScanner.cpp:56-58 | getInt16BE is the two's-complement reading of getUint16BE |
| Bytes.Int32LE | src/BLEScanner.cpp:45-50 | getInt32LE is the two's-complement reading of getUint32LE |
| Bytes.BigEndianIsSwappedLittleEndian | src/BLEScanner.cpp:52-62 | the big-endian readers are the little-endian readers of the swapped byte pair |
| Bytes.Int16LESign | src/BLEScanner.cpp:41-43 | getInt16LE is negative exactly when the high byte's top bit is set |
| Hex.HexValue | src/BLEScanner.cpp:109-120 | the value of a hex digit of either case is a nibble |
| Hex.HexDigit | src/BLEScanner.cpp:129 | HEX_CHARS[n] is the upper-case digit whose value is n |
| Hex.HexEncode | src/BLEScanner.cpp:128-138 | two characters per byte, the high nibble's digit first |
| Hex.HexDecode | src/BLEScanner.cpp:93-126 | defines what hexStringToVector accepts and the bytes it produces; its promise is carried by Hex.HexStringToVector, Hex.DecodeEncode and Hex.EncodeDecode |
| Hex.HexStringToVector | src/BLEScanner.cpp:93-126 | succeeds iff the length is even and every character is a hex digit of either case; then byte k is hi*16+lo of pair k; odd length leaves the buffer untouched, a bad character empties it |
| Hex.BytesToHexString | src/BLEScanner.cpp:128-138 | exactly 2*len upper-case hex characters, equal to HexEncode |
| Hex.EncodeIsUpper | src/BLEScanner.cpp:128-138 | every character bytesToHexString emits is an upper-case hex digit |
| Hex.DecodeEncode | src/BLEScanner.cpp:93-138 | hexStringToVector of bytesToHexString's output gives back the original bytes |
| Hex.ToUpperHex | src/BLEScanner.cpp:111-116 | upper-casing a hex digit keeps its value |
| Hex.NibblesOfPair | src/BLEScanner.cpp:121 | shifting the high nibble up 4 bits and or-ing in the low one splits back into the two nibbles |
| Hex.EncodeDecode | src/BLEScanner.cpp:93-138 | re-encoding decoded hex text gives the text upper-cased, character by character |
| Hex.EncodeDecodePair | src/BLEScanner.cpp:93-138 | the same fact for one character pair |
| Hex.EncodedPair | src/BLEScanner.cpp:135-136 | characters 2k and 2k+1 of the encoding are the digits of byte k's nibbles |
| Hex.DigitOfValue | src/BLEScanner.cpp:129 | the digit of a hex character's value is that character upper-cased |
| Hex.DecodedPair | src/BLEScanner.cpp:106-124 | byte k of a successful decode is hi*16+lo of characters 2k and 2k+1 |
| Hex.UpperDigitUnique | src/BLEScanner.cpp:129 | two upper-case digits with the same value are the same character |
| ObjectTable.HasLengthByte | lib/BTHomeDecoder/BTHomeDecoder.cpp:231-239 | defines the tags 0x53 and 0x54 as carrying a length byte; its promise is carried by ObjectTable.LengthSourcesDisjoint |
| ObjectTable.ObjectDataLength | lib/BTHomeDecoder/BTHomeDecoder.cpp:241-339 | every table length is -1 (unknown) or one of 1, 2, 3, 4 |
| ObjectTable.ObjectFactor | lib/BTHomeDecoder/BTHomeDecoder.cpp:341-399 | every scale factor is 1, 0.1, 0.01, 0.001 or 0.000001 |
| ObjectTable.ObjectName | lib/BTHomeDecoder/BTHomeDecoder.cpp:491-649 | every tag has a non-empty name |
| ObjectTable.ObjectSigned | lib/BTHomeDecoder/BTHomeDecoder.cpp:401-419 | defines the tags read as signed; its promise is carried by BTHomeProperties.MeasurementsFollowTable |
| ObjectTable.ObjectUnit | lib/BTHomeDecoder/BTHomeDecoder.cpp:421-489 | defines the unit text of each tag, "" when none; its promise is carried by BTHomeProperties.MeasurementsFollowTable |
| ObjectTable.LengthSourcesDisjoint | lib/BTHomeDecoder/BTHomeDecoder.cpp:231-239 | only 0x53 and 0x54 take their length from the stream, and the table gives no length for them |
| ObjectTable.UnnamedDecodableTags | lib/BTHomeDecoder/BTHomeDecoder.cpp:241-339 | the eight tags with a table length but no name entry decode as "unknown" |
| ObjectTable.OnlyUnnamedDecodableTags | lib/BTHomeDecoder/BTHomeDecoder.cpp:491-649 | no other decodable tag is named "unknown" |
| ObjectTable.NamedUndecodableTags | lib/BTHomeDecoder/BTHomeDecoder.cpp:241-339 | exactly 0x4A, 0x55, 0x59 and 0x5A are named but have no length, so they stop the loop (an if-and-only-if) |
| ObjectTable.UnlistedTagDefaults | lib/BTHomeDecoder/BTHomeDecoder.cpp:396-397 | an unlisted tag has length -1, factor 1, unsigned, unit "" and name "unknown" |
| BTHomeDecoder.Version | lib/BTHomeDecoder/BTHomeDecoder.cpp:31 | `(advInfo >> 5) & 7` is below 8 |
| BTHomeDecoder.LittleEndian | lib/BTHomeDecoder/BTHomeDecoder.cpp:668-683 | the little-endian value of n bytes is below 256^n |
| BTHomeDecoder.NextObject | lib/BTHomeDecoder/BTHomeDecoder.cpp:117-140 | a found object has the stream's tag; its data lies after the tag and inside the payload; it starts one byte after the tag with the table length, or two bytes after with the stream length for 0x53/0x54 |
| BTHomeDecoder.Spans | lib/BTHomeDecoder/BTHomeDecoder.cpp:116-164 | every object the loop visits lies after the start and inside the payload |
| BTHomeDecoder.ConsumedEnd | lib/BTHomeDecoder/BTHomeDecoder.cpp:116-164 | the loop's final index never moves backwards and never passes the payload end |
| BTHomeDecoder.KeyByte | lib/BTHomeDecoder/BTHomeDecoder.cpp:72-75 | strtol of two hex digits is hi*16+lo |
| BTHomeDecoder.KeyBytes | lib/BTHomeDecoder/BTHomeDecoder.cpp:71-75 | a 32-character key gives 16 key bytes |
| BTHomeDecoder.HexDigitsOf | lib/BTHomeDecoder/BTHomeDecoder.cpp:173-177 | the cleaned MAC string holds hex digits only and is no longer than the input |
| BTHomeDecoder.MacBytes | lib/BTHomeDecoder/BTHomeDecoder.cpp:172-186 | it succeeds iff exactly 12 hex digits remain, giving 6 bytes |
| BTHomeDecoder.MacOrZeros | lib/BTHomeDecoder/BTHomeDecoder.cpp:78-81 | the MAC used for the nonce is always 6 bytes |
| BTHomeDecoder.Nonce | lib/BTHomeDecoder/BTHomeDecoder.cpp:193-199 | 13 bytes: mac[0..6), 0xD2, 0xFC, advInfo, then the 4 counter bytes |
| BTHomeDecoder.CcmOpen | lib/BTHomeDecoder/BTHomeDecoder.cpp:201-228 | a successful decrypt had at least 4 bytes and yields 4 fewer (the MIC) |
| BTHomeDecoder.Payload | lib/BTHomeDecoder/BTHomeDecoder.cpp:41-56 | a payload, when there is one, is non-empty |
| BTHomeDecoder.MacStringToBytes | lib/BTHomeDecoder/BTHomeDecoder.cpp:172-186 | succeeds iff 12 hex digits remain after the cleaning loop; byte i is the value of pair i; it agrees with MacBytes |
| BTHomeDecoder.DecryptAesCcm | lib/BTHomeDecoder/BTHomeDecoder.cpp:188-229 | builds the nonce in the array and succeeds exactly when CcmOpen does, with its plaintext of length len-4 |
| BTHomeDecoder.ObjectsFromStep | lib/BTHomeDecoder/BTHomeDecoder.cpp:116-164 | one loop step appends the found object's measurement and goes on at its end |
| BTHomeDecoder.ObjectsFromStop | lib/BTHomeDecoder/BTHomeDecoder.cpp:133-140 | a stop leaves nothing more to collect |
| BTHomeDecoder.ReadObject | lib/BTHomeDecoder/BTHomeDecoder.cpp:118-163 | one loop body: it finds an object iff NextObject does, records its measurement, and strictly advances the index within the payload |
| BTHomeDecoder.ParseObjectStream | lib/BTHomeDecoder/BTHomeDecoder.cpp:115-164 | the while loop terminates and collects exactly the measurements of Objects(payload) |
| BTHomeDecoder.DecryptStage | lib/BTHomeDecoder/BTHomeDecoder.cpp:65-110 | the key loop, MAC fallback, length guard, counter copy and decrypt succeed exactly when DecryptPayload does, with its plaintext |
| BTHomeDecoder.Header | lib/BTHomeDecoder/BTHomeDecoder.cpp:27-39 | defines the result after the header byte: BTHome, version from bits 5-7, encryption from bit 0, trigger from bit 2, no measurements; its promise is carried by BTHomeProperties.HeaderFlags |
| BTHomeDecoder.UnsignedLittle | lib/BTHomeDecoder/BTHomeDecoder.cpp:668-683 | defines the unsigned little-endian value of 1 to 4 bytes; its promise is carried by BTHomeProperties.UnsignedIsLittleEndian |
| BTHomeDecoder.SignedLittle | lib/BTHomeDecoder/BTHomeDecoder.cpp:651-666 | defines the signed reading of 1 to 4 bytes; its promise is carried by BTHomeProperties.SignedIsTwosComplement |
| BTHomeDecoder.MeasurementOf | lib/BTHomeDecoder/BTHomeDecoder.cpp:142-159 | defines one measurement from a span: tag, raw integer, factor, name and unit; its promise is carried by BTHomeProperties.MeasurementsFollowTable |
| BTHomeDecoder.ObjectsFrom | lib/BTHomeDecoder/BTHomeDecoder.cpp:116-164 | defines the object loop from a position; its promise is carried by BTHomeDecoder.ObjectsFromStep, BTHomeDecoder.ObjectsFromStop and BTHomeProperties.ObjectsConcat |
| BTHomeDecoder.Objects | lib/BTHomeDecoder/BTHomeDecoder.cpp:116-164 | defines the object loop over the whole payload; its promise is carried by BTHomeProperties.ObjectsAreSpans and BTHomeDecoder.ParseObjectStream |
| BTHomeDecoder.DecryptPayload | lib/BTHomeDecoder/BTHomeDecoder.cpp:65-110 | defines the encrypted path: key and length checks, nonce, CCM; its promise is carried by BTHomeProperties.EncryptedFailures, BTHomeProperties.EncryptedSuccess and BTHomeDecoder.DecryptStage |
| BTHomeDecoder.Parse | lib/BTHomeDecoder/BTHomeDecoder.cpp:9-167 | defines parseBTHomeV2; its promise is carried by BTHomeDecoder.ParseBTHomeV2 and the BTHomeProperties lemmas |
| BTHomeDecoder.ParseBTHomeV2 | lib/BTHomeDecoder/BTHomeDecoder.cpp:9-167 | the imperative parser returns exactly the result of the specification Parse |
| BTHomeProperties.EmptyServiceData | lib/BTHomeDecoder/BTHomeDecoder.cpp:14-25 | empty service data: not BTHome, every flag false, version 0, no measurements |
| BTHomeProperties.HeaderFlags | lib/BTHomeDecoder/BTHomeDecoder.cpp:27-39 | any non-empty input is BTHome; encrypted is bit 0, trigger-based bit 2, version bits 7..5; V2 iff version 2, and other versions are not rejected |
| BTHomeProperties.NothingAfterHeader | lib/BTHomeDecoder/BTHomeDecoder.cpp:44-53 | MAC flag with fewer than 7 bytes, or nothing after the header: header fields only, not decrypted, no measurements |
| BTHomeProperties.DecryptionSucceededIff | lib/BTHomeDecoder/BTHomeDecoder.cpp:51-113 | decryptionSucceeded holds iff there is a payload and, when encrypted, it decrypts; without it there are no measurements |
| BTHomeProperties.PlainPayload | lib/BTHomeDecoder/BTHomeDecoder.cpp:111-164 | an unencrypted payload is marked decrypted and its objects are parsed as they stand |
| BTHomeProperties.PayloadOffset | lib/BTHomeDecoder/BTHomeDecoder.cpp:42-56 | the payload starts after the 6 MAC bytes when the MAC flag is set, else right after the header byte |
| BTHomeProperties.EncryptedFailures | lib/BTHomeDecoder/BTHomeDecoder.cpp:65-105 | a key length other than 32, a payload under 8 bytes, or an authentication failure each leave only the header fields and no measurements |
| BTHomeProperties.EncryptedSuccess | lib/BTHomeDecoder/BTHomeDecoder.cpp:95-113 | on success the plaintext is 4 bytes shorter than the payload and its objects are the measurements |
| BTHomeProperties.CiphertextIncludesCounter | lib/BTHomeDecoder/BTHomeDecoder.cpp:87-101 | the ciphertext handed to CCM is payload[..len-4], so it ends with the counter bytes payload[len-8..len-4) |
| BTHomeProperties.NonceInjective | lib/BTHomeDecoder/BTHomeDecoder.cpp:193-199 | two nonces are equal iff their MACs, advInfo bytes and counters are |
| BTHomeProperties.HexDigitsOfAppend | lib/BTHomeDecoder/BTHomeDecoder.cpp:173-177 | the cleaning loop distributes over concatenation |
| BTHomeProperties.HexDigitsOfDigits | lib/BTHomeDecoder/BTHomeDecoder.cpp:173-177 | cleaning keeps an all-hex string as it is |
| BTHomeProperties.HexDigitsOfColonHex | lib/BTHomeDecoder/BTHomeDecoder.cpp:173-177 | cleaning "AA:BB:..." leaves the hex text of the bytes |
| BTHomeProperties.MacTextRoundTrip | lib/BTHomeDecoder/BTHomeDecoder.cpp:172-186 | macStringToBytes of a colon-separated MAC text gives back its 6 bytes |
| BTHomeProperties.MacFailureGivesZeros | lib/BTHomeDecoder/BTHomeDecoder.cpp:78-81 | when the MAC does not parse, the nonce uses six zero bytes |
| BTHomeProperties.KeyBytesOfHexKey | lib/BTHomeDecoder/BTHomeDecoder.cpp:71-75 | for a 32-digit hex key the strtol loop gives the same bytes as a hex decode |
| BTHomeProperties.ObjectsAreSpans | lib/BTHomeDecoder/BTHomeDecoder.cpp:116-164 | the measurements are those of the visited objects, one per object, in stream order |
| BTHomeProperties.SpansInPayload | lib/BTHomeDecoder/BTHomeDecoder.cpp:123-140 | each visited object's tag byte and data lie within the payload, and its tag is the byte at its position |
| BTHomeProperties.SpansTile | lib/BTHomeDecoder/BTHomeDecoder.cpp:116-164 | the objects follow one another with no gap from the start, and the loop ends where the last one ends |
| BTHomeProperties.LoopStopsAtEndOrStop | lib/BTHomeDecoder/BTHomeDecoder.cpp:117-140 | the loop ends at the payload end or at a stop condition, nowhere else |
| BTHomeProperties.NextObjectShift | lib/BTHomeDecoder/BTHomeDecoder.cpp:117-140 | reading an object does not depend on the bytes before it |
| BTHomeProperties.SliceShift | lib/BTHomeDecoder/BTHomeDecoder.cpp:147-149 | an object's data bytes are the same after a prefix is prepended |
| BTHomeProperties.NextObjectExtend | lib/BTHomeDecoder/BTHomeDecoder.cpp:117-140 | an object found in a prefix is found the same way in any extension |
| BTHomeProperties.ObjectsFromShift | lib/BTHomeDecoder/BTHomeDecoder.cpp:116-164 | the objects from position len(a)+i of a+c are those from position i of c |
| BTHomeProperties.SameStep | lib/BTHomeDecoder/BTHomeDecoder.cpp:116-164 | two loops that record the same measurement and agree afterward agree from the start |
| BTHomeProperties.ObjectsFromExtend | lib/BTHomeDecoder/BTHomeDecoder.cpp:116-164 | a prefix parsed to its end contributes its objects, followed by those of the rest |
| BTHomeProperties.ObjectsConcat | lib/BTHomeDecoder/BTHomeDecoder.cpp:116-164 | measurements of a fully parsed prefix followed by c are those of the prefix, then those of c, in order |
| BTHomeProperties.AppendAssoc | lib/BTHomeDecoder/BTHomeDecoder.cpp:116-164 | proof helper: sequence concatenation is associative |
| BTHomeProperties.StopKeepsCollected | lib/BTHomeDecoder/BTHomeDecoder.cpp:133-140 | a stop after a parsed prefix keeps everything already collected and adds nothing |
| BTHomeProperties.UnknownTagStops | lib/BTHomeDecoder/BTHomeDecoder.cpp:133-136 | a tag of unknown length stops the loop |
| BTHomeProperties.ShortDataStops | lib/BTHomeDecoder/BTHomeDecoder.cpp:137-140 | a declared length running past the payload stops the loop |
| BTHomeProperties.ShortLengthByteStops | lib/BTHomeDecoder/BTHomeDecoder.cpp:125-140 | a length-byte tag with no length byte left, or a length past the payload, stops the loop |
| BTHomeProperties.MeasurementsFollowTable | lib/BTHomeDecoder/BTHomeDecoder.cpp:142-159 | every measurement is valid, with the table's factor, name and unit for its tag |
| BTHomeProperties.UnsignedIsLittleEndian | lib/BTHomeDecoder/BTHomeDecoder.cpp:668-683 | widths 1 to 4 read the sum of data[i]*256^i; other widths read 0 |
| BTHomeProperties.SignedIsTwosComplement | lib/BTHomeDecoder/BTHomeDecoder.cpp:651-666 | widths 1, 2 and 4 are sign-extended; width 3 is not (it reads non-negative); other widths read 0 |
| BTHomeProperties.TemperatureExample | lib/BTHomeDecoder/BTHomeDecoder.cpp:9-167 | `40 02 E8 00` decodes to one measurement: tag 0x02 "temperature", raw 232 at factor 0.01 (2.32), unit "°C" |
| BTHomeProperties.EncryptedBadKeyExample | lib/BTHomeDecoder/BTHomeDecoder.cpp:65-69 | an encrypted frame with a short key is reported encrypted, not decrypted, with no measurements |
| Json.Get | src/BLEScanner.cpp:631-633 | defines reading a member: its value, or null when missing; its promise is carried by Dispatch.DecodedCarriesMetadata |
| Json.AsText | src/BLEScanner.cpp:641 | defines `as<String>()`: the text of a string value, "" for anything else; its promise is carried by VendorDecoders.BTHomeNeedsServiceData and MacText.MacTextOfAddress |
| VendorDecoders.Volt2Percent | src/BLEScanner.cpp:177-184 | always between 0 and 100; 0 at or below 2.2 V and 100 at or above 2.85 V |
| VendorDecoders.Volt2PercentMonotone | src/BLEScanner.cpp:177-184 | a higher voltage never gives a lower percentage |
| VendorDecoders.Round | src/BLEScanner.cpp:27 | round() lands within 0.5 of its argument and keeps its sign |
| VendorDecoders.Round1 | src/BLEScanner.cpp:27 | round1 lands within 0.05 of its argument |
| VendorDecoders.TruncDiv10 | src/BLEScanner.cpp:318 | the quotient by 10 truncated toward zero, as the int16 cast of a float quotient does |
| VendorDecoders.Fixed88 | src/BLEScanner.cpp:79-88 | convert_8_8: below 256, and base + frac/256 unless both bytes are 0xFF |
| VendorDecoders.DigitChar | src/BLEScanner.cpp:300 | a decimal digit character has the digit's value |
| VendorDecoders.Decimal | src/BLEScanner.cpp:300-303 | utoa base 10: one or more digits, no leading zero |
| VendorDecoders.DecimalRoundTrip | src/BLEScanner.cpp:300-303 | reading the decimal text back gives the number |
| VendorDecoders.Ruuvi | src/BLEScanner.cpp:189-193 | decodes iff there are at least 20 bytes and data[2] is 5 |
| VendorDecoders.RuuviField | src/BLEScanner.cpp:195-233 | defines the value decodeRuuvi writes under one member, or none; its promise is carried by VendorDecoders.RuuviClimateFields, VendorDecoders.RuuviMotionFields and VendorDecoders.RuuviPowerFields |
| VendorDecoders.RuuviClimateFields | src/BLEScanner.cpp:195-207 | dev is "Ruuvi"; temp is omitted iff the raw value is 0x8000; hum and press are omitted iff 0xFFFF |
| VendorDecoders.RuuviMotionFields | src/BLEScanner.cpp:209-233 | acceleration is omitted iff 0x8000, move iff 255, and seq iff 0xFFFF |
| VendorDecoders.RuuviPowerPresence | src/BLEScanner.cpp:216-226 | battery and its percentage are omitted iff powerInfo>>5 is 2047; txpwr is omitted iff powerInfo&0x1F is 31 |
| VendorDecoders.RuuviPowerFields | src/BLEScanner.cpp:216-226 | txpwr is 2*txp-40, even and in [-40, 20]; bat is ((powerInfo>>5)+1600)/1000 V with a percentage in 0..100 |
| VendorDecoders.RuuviPowerWord | src/BLEScanner.cpp:216-224 | the shift and mask of powerInfo read as the byte-level formula |
| VendorDecoders.Int16BESentinel | src/BLEScanner.cpp:197-198 | the signed 0x8000 sentinel is exactly the bytes 80 00 |
| VendorDecoders.Mopeka | src/BLEScanner.cpp:238-240 | decodes iff there are exactly 12 bytes |
| VendorDecoders.MopekaFields | src/BLEScanner.cpp:242-255 | lvl_raw is the low 14 bits of data[6..5], so below 16384; quality is in 0..3; temp is in [-40, 87]; sync is bit 7 of data[4]; batpct is in 0..100 |
| VendorDecoders.Tpms0100 | src/BLEScanner.cpp:264-266 | decodes iff there are exactly 18 bytes |
| VendorDecoders.Tpms00AC | src/BLEScanner.cpp:277-279 | decodes iff there are exactly 15 bytes |
| VendorDecoders.TpmsFields | src/BLEScanner.cpp:268-286 | both write exactly dev, loc, press, temp, batpct and status; loc is 7 bits; the first sensor's press is getInt32LE(8)/100000; the second's status is 0 |
| VendorDecoders.Otodata | src/BLEScanner.cpp:290-310 | decodes iff there are exactly 21 or 24 bytes |
| VendorDecoders.OtodataIdentity | src/BLEScanner.cpp:297-304 | a 24-byte frame gives dev, serial and model, whose decimal texts read back as getUint32LE(9) and getUint16LE(21) |
| VendorDecoders.Rotarex | src/BLEScanner.cpp:312-315 | decodes iff there are exactly 12 bytes |
| VendorDecoders.RotarexLevel | src/BLEScanner.cpp:318 | defines the int16_t level: the signed reading of bytes 8-9 divided by 10 toward zero; its promise is carried by VendorDecoders.RotarexLevelRange |
| VendorDecoders.RotarexLevelRange | src/BLEScanner.cpp:318-336 | the level lies in [-3276, 3276], so the -32768 and 10000 cases are unreachable; status is "OK"; connectable is copied from the raw document |
| VendorDecoders.Mikrotik | src/BLEScanner.cpp:341-343 | decodes iff there are exactly 20 bytes |
| VendorDecoders.MikrotikFields | src/BLEScanner.cpp:344-355 | the OUT model (with tempc) iff the temperature is not 0x8000; version is data[2]; encrypted iff bit 0 of data[3], and then nothing else is written |
| VendorDecoders.MikrotikField | src/BLEScanner.cpp:344-387 | defines the value decodeMikrotik writes under one member, or none; its promise is carried by VendorDecoders.MikrotikFields, VendorDecoders.MikrotikBody and VendorDecoders.MikrotikFlags |
| VendorDecoders.MikrotikBody | src/BLEScanner.cpp:355-386 | an unencrypted frame gives salt, three 8.8 accelerations below 256, uptime getUint32LE(14) and batt data[19] |
| VendorDecoders.MikrotikFlags | src/BLEScanner.cpp:364-383 | each of the six flag members is present iff its bit of data[18] is set, and no other member is true |
| VendorDecoders.MeasurementJson | src/BLEScanner.cpp:408-414 | defines the JSON object of one measurement; its promise is carried by VendorDecoders.BTHomeDocFields |
| VendorDecoders.BTHomeDoc | src/BLEScanner.cpp:402-416 | defines the document decodeBTHome writes for a parser result; its promise is carried by VendorDecoders.BTHomeDocFields |
| VendorDecoders.BTHome | src/BLEScanner.cpp:391-417 | defines decodeBTHome; its promise is carried by VendorDecoders.BTHomeDecodes and VendorDecoders.BTHomeNeedsServiceData |
| VendorDecoders.BTHomeDocFields | src/BLEScanner.cpp:402-415 | the BTHome document exists iff isBTHome and decryptionSucceeded; it holds the version and one object per measurement, in order, with its id and value |
| VendorDecoders.BTHomeDecodes | src/BLEScanner.cpp:391-401 | decodeBTHome succeeds only when sd is hex text, and then parses its bytes with the raw MAC text |
| VendorDecoders.BTHomeNeedsServiceData | src/BLEScanner.cpp:394-395 | without an sd member nothing decodes |
| Dispatch.UpperAscii | src/BLEScanner.cpp:431 | String::toUpperCase keeps the length, leaves no lower-case letter, keeps every other character, and maps each letter a-z to its capital |
| Dispatch.UpperAsciiNoLower | src/BLEScanner.cpp:431 | a text with no lower-case letter is its own upper-case form |
| Dispatch.UpperAsciiIdempotent | src/BLEScanner.cpp:431 | upper-casing twice is upper-casing once |
| Dispatch.LastServiceData | src/BLEScanner.cpp:447-454 | the element kept is one the device reported (the last) |
| Dispatch.VendorId | src/BLEScanner.cpp:576 | the vendor id, mfd[1] shifted up 8 bits or-ed with mfd[0], is the 16-bit little-endian word at 0 |
| Dispatch.StripColons | src/BLEScanner.cpp:642 | no colon is left, and the text does not grow |
| Dispatch.RawField | src/BLEScanner.cpp:427-459 | defines the value the scan callback writes under one member, or none; its promise is carried by Dispatch.RawDocMembers and Dispatch.RawDocValues |
| Dispatch.RawDoc | src/BLEScanner.cpp:427-459 | defines the raw document of one advertisement; its promise is carried by Dispatch.RawDocMembers, Dispatch.RawDocValues and Dispatch.RawDocServiceData |
| Dispatch.IsBTHomeRoute | src/BLEScanner.cpp:570-571 | defines the BTHome route: a service-data UUID containing fcd2; its promise is carried by Dispatch.BTHomeRoute and Dispatch.BTHomeTakesPrecedence |
| Dispatch.DecodeVendor | src/BLEScanner.cpp:577-600 | defines the switch over the vendor id; its promise is carried by Dispatch.DecodeVendorGates and Dispatch.TwelveByteFramesByVendor |
| Dispatch.Deliver | src/BLEScanner.cpp:566-604 | defines deliver; its promise is carried by Dispatch.BTHomeRoute, Dispatch.VendorDispatch, Dispatch.VendorRoute and Dispatch.NoVendorIdNotDecoded |
| Dispatch.MergedField | src/BLEScanner.cpp:627-638 | defines one member of a decoded output; its promise is carried by Dispatch.DecodedCarriesMetadata and Dispatch.DecodedKeepsDecoderFields |
| Dispatch.Output | src/BLEScanner.cpp:627-638 | defines the document process hands back; its promise is carried by Dispatch.UndecodedIsRaw, Dispatch.DecodedCarriesMetadata and Dispatch.DecodedKeepsDecoderFields |
| Dispatch.RawDocMembers | src/BLEScanner.cpp:427-459 | the raw document always has mac, rssi and time, each optional member iff the device has that part, and never connectable |
| Dispatch.RawDocValues | src/BLEScanner.cpp:430-459 | mac is the upper-cased address, time the clock value, txpwr a signed byte |
| Dispatch.RawDocServiceData | src/BLEScanner.cpp:447-454 | of several service-data elements the last is kept, its bytes as hex text |
| Dispatch.RawDocManufacturer | src/BLEScanner.cpp:438-442 | the manufacturer data is kept as the hex text of its bytes |
| Dispatch.RawDocNotBTHome | src/BLEScanner.cpp:570-571 | without an fcd2 service-data UUID the raw document does not take the BTHome route |
| Dispatch.DecodeVendorGates | src/BLEScanner.cpp:577-600 | a vendor id decodes iff it is one of the seven known ids and its decoder's length gate holds |
| Dispatch.TwelveByteFramesByVendor | src/BLEScanner.cpp:581-596 | a 12-byte frame goes to Mopeka under 0x0059 and to Rotarex under 0xFFFF |
| Dispatch.BTHomeTakesPrecedence | src/BLEScanner.cpp:566-573 | an fcd2 service-data UUID routes to BTHome whatever the manufacturer data, parsing the kept bytes with the upper-cased MAC |
| Dispatch.BTHomeRoute | src/BLEScanner.cpp:570-573 | a document whose svduuid contains fcd2 is parsed as BTHome from its sd and mac |
| Dispatch.VendorDispatch | src/BLEScanner.cpp:574-601 | otherwise manufacturer data of at least 2 bytes goes to the decoder its vendor id selects, on exactly the reported bytes |
| Dispatch.VendorRoute | src/BLEScanner.cpp:574-601 | a document off the BTHome route whose mfd is the hex text of m goes to m's vendor decoder |
| Dispatch.NoVendorIdNotDecoded | src/BLEScanner.cpp:574-603 | without BTHome data, manufacturer data missing or under 2 bytes is never decoded |
| Dispatch.RotarexConnectableIsNull | src/BLEScanner.cpp:336 | a decoded Rotarex record's connectable is null, since the scan callback never writes it |
| Dispatch.RotarexCopiesConnectable | src/BLEScanner.cpp:594-595 | the Rotarex document's connectable is the raw document's |
| Dispatch.UndecodedIsRaw | src/BLEScanner.cpp:627 | an undecoded record is handed back as its raw document |
| Dispatch.DecodedCarriesMetadata | src/BLEScanner.cpp:630-638 | a decoded output has the raw mac, time and rssi (null if absent), and the raw name and txpwr when the raw document has them |
| Dispatch.DecodedKeepsDecoderFields | src/BLEScanner.cpp:627-638 | every other member of a decoded output is the decoder's, present iff the decoder wrote it |
| Dispatch.StripColonsAppend | src/BLEScanner.cpp:642 | colon removal distributes over concatenation |
| Dispatch.StripColonsNoColon | src/BLEScanner.cpp:642 | text without a colon is unchanged |
| Dispatch.StripColonsIdempotent | src/BLEScanner.cpp:642 | removing colons twice is removing them once |
| MacText.ColonHexCharacters | src/BLEScanner.cpp:430-431 | a colon-separated MAC text holds only upper-case hex digits and colons |
| MacText.UpperAsciiOfColonHex | src/BLEScanner.cpp:431 | upper-casing such a text changes nothing |
| MacText.StripColonsOfColonHex | src/BLEScanner.cpp:642 | stripping its colons leaves the hex text of the address bytes |
| MacText.MacTextOfAddress | src/BLEScanner.cpp:430-432 | for an address whose upper-cased text is colon-separated hex (written in either case), the MAC text process copies is the hex text of the address bytes: 12 characters for 6 bytes |
| RingBuffers.Footprint | src/BLEScanner.cpp:462-472 | defines the bytes of a queue of records, the sum of their sizes; its promise is carried by RingBuffers.FootprintAppend |
| RingBuffers.FootprintAppend | src/BLEScanner.cpp:472 | a record queued at the back adds its size |
| RingBuffers.RingBuffer.constructor | src/BLEScanner.cpp:560-561 | an empty buffer of the given capacity, nothing reserved, watermark 0 |
| RingBuffers.RingBuffer.SendAcquire | src/BLEScanner.cpp:463 | may fail; succeeds only if the size fits, and then reserves it; queue and watermark unchanged |
| RingBuffers.RingBuffer.SendComplete | src/BLEScanner.cpp:472 | may fail; on success the record is appended at the back and its reservation released; the bytes in use are unchanged |
| RingBuffers.RingBuffer.Receive | src/BLEScanner.cpp:611 | nothing iff the queue is empty, otherwise the oldest record, which stays in use until returned |
| RingBuffers.RingBuffer.ReturnItem | src/BLEScanner.cpp:617 | the received record's bytes are free again |
| RingBuffers.RingBuffer.UpdateHighWatermark | src/BLEScanner.cpp:475 | the watermark becomes the larger of itself and the bytes in use: it never decreases |
| Scanner.Inc32 | src/BLEScanner.cpp:165-168 | a uint32_t `++`: (x+1) mod 2^32, always below 2^32 |
| Scanner.WrapIsModulo | src/BLEScanner.cpp:165-168 | proof helper: a counter with w wraps is the total mod 2^32 |
| Scanner.CopyLength | src/BLEScanner.cpp:643-645 | copyLen is the text length, cut to macLen-1; always below macLen, so the NUL fits |
| Scanner.HwmPercent | src/BLEScanner.cpp:532 | the `uint8_t` percentage is below 256, and 0 for a zero-size buffer |
| Scanner.HwmPercentExact | src/BLEScanner.cpp:532 | when hwm*100 cannot wrap, it is hwm*100/total, at most 100 |
| Scanner.HwmPercentAtMost100 | src/BLEScanner.cpp:532 | a watermark no larger than the buffer never reports more than 100, even when the product wraps |
| Scanner.HwmPercentWrapExample | src/BLEScanner.cpp:532 | past 2^32/100 bytes the product wraps: a full 50,000,000-byte buffer reports 14 |
| Scanner.QuotientAtMost | src/BLEScanner.cpp:532 | proof helper: a quotient of x <= d*q by d is at most q |
| Scanner.BLEScanner.constructor | src/BLEScanner.cpp:154-169 | a new Impl: no queue, empty key, not started, every counter 0 |
| Scanner.BLEScanner.SetBTHomeKey | src/BLEScanner.cpp:510-516 | the key deliver uses is the text given at the call (a copy, see Left out), or "" for none; nothing else changes |
| Scanner.BLEScanner.Begin | src/BLEScanner.cpp:540-564 | the first call creates an empty queue of the given size: no records, nothing reserved or held, watermark 0, no byte in use; a later call changes nothing |
| Scanner.BLEScanner.OnResult | src/BLEScanner.cpp:423-478 | with no queue nothing happens; a refused reservation bumps only acquireFail and reserves nothing; a size mismatch queues nothing and keeps the reservation; a refused commit bumps only queueFull and keeps the reservation; success appends the raw document, adds its size to the bytes in use and raises the watermark to them if higher; the held record never changes, the watermark changes only on success and never decreases |
| Scanner.BLEScanner.Process | src/BLEScanner.cpp:606-652 | false with nothing changed iff there is no queue or it is empty; otherwise it takes the oldest record, counts it received, counts it decoded iff deliver claims it, returns the merged or raw document, and copies the colon-stripped MAC cut to macLen-1 with a NUL; the reservation and watermark never change and no record is left held |
| Scanner.BLEScanner.TakeRecord | src/BLEScanner.cpp:607-618 | receive, return_item and received++: the oldest record, or nothing with the queue unchanged; the reservation and watermark never change and no record is left held |
| Scanner.BLEScanner.CountDecoded | src/BLEScanner.cpp:623-624 | decoded++ exactly when the record was claimed |
| Scanner.BLEScanner.CopyMac | src/BLEScanner.cpp:643-647 | the first copyLen characters are the text's, then a NUL, and the rest of the buffer is untouched |
| Scanner.BLEScanner.CurrentStats | src/BLEScanner.cpp:526-538 | defines getStats: all zeros without a queue, otherwise the watermark, capacity, percentage and the four counters; its promise is carried by Scanner.BLEScanner.StatsPercentBound |
| Scanner.BLEScanner.CountersWrap | src/BLEScanner.cpp:165-168 | received and decoded are their unbounded totals mod 2^32 |
| Scanner.BLEScanner.DecodedAtMostReceived | src/BLEScanner.cpp:618-624 | until received wraps, decoded never exceeds received |
| Scanner.BLEScanner.StatsPercentBound | src/BLEScanner.cpp:526-538 | the reported percentage is at most 100, and for a buffer under 2^32/100 bytes it is the exact integer percentage of the watermark |

## Left out

- AES-CCM (mbedtls) is the parameter `decrypt`. The one property its type demands is that a plaintext is as long as the ciphertext. A failed `mbedtls_ccm_setkey` is one of its failures.
- Floating point: every float is an exact real. This covers the values of BTHome measurements, the Mopeka level polynomial and `round1`, `convert_8_8_to_float`, the TPMS divisions and `k0`, the Ruuvi scales, and `volt2percent`. The Rotarex `int16_t` cast of a float quotient is modelled as truncating integer division (`TruncDiv10`).
- `fseconds` (the clock) is the parameter `time` of `OnResult`.
- MsgPack serialisation and deserialisation via ArduinoJson are left out. A queued record holds the raw document itself. `measureMsgPack` and `serializeMsgPack` lengths are the parameters `total` and `written` of `OnResult`.
- JSON member names are a fixed enumeration (`Json.Key`, with the texts in `Labels`), not arbitrary strings. `as<String>()` of a non-string reads as "".
- The decoders fill the caller's empty `JsonDocument` field by field. The model computes the same document as a fresh map.
- `Dispatch.Contains` models `String::indexOf(...) != -1`.
- `VendorDecoders.Decimal` models `utoa` in base 10.
- `espidf::RingBuffer`'s implementation is not part of this model. It is an abstract class:
  - reservation and commit may fail for reasons the model does not see;
  - `receive` gives nothing exactly when no record is queued;
  - the buffer's bookkeeping is a byte count.
- When `serializeMsgPack` writes a different length, the source only logs. The acquired slot is never completed or released, and the model keeps its bytes reserved. The model does not capture that a FIFO ring buffer would then hold every later record behind that never-completed item: the abstract `Receive` still hands out records committed after it.
- Logging (`log_d`, `log_e`, `log_v`) is left out, as is the payload hex dump in `parseBTHomeV2`.
- Radio and task plumbing is left out: `BLEDevice` setup, gathering the fields of `BLEAdvertisedDevice` (here the `Advertisement` datatype), `scanTask`, `xTaskCreate`, and the concurrency between the scan callback and `process`. So are `setActiveScan`, the scan parameters of `begin` and the `instance` singleton. The model's `Impl` always exists, so the `!_impl` paths are not modelled.
- Scanner.BLEScanner.SetBTHomeKey: the source keeps the caller's `const char *` and `deliver` reads through it on every record, so a later change to that text reaches the parser and a freed buffer leaves a dangling pointer. The model copies the text at the call, which corresponds to a caller whose key outlives the scanner and never changes.
- Scanner.BLEScanner.Process: it requires `macLen >= 1`. With `macLen == 0` the source computes `macLen - 1` in `size_t`, which wraps, and `memcpy` writes past the buffer.
- Scanner.BLEScanner.DecodedAtMostReceived: it holds only until `received` first wraps at 2^32. After that the 32-bit counters can compare either way; the unbounded totals keep the order (an invariant of `Valid`).
- Scanner.BLEScanner.StatsPercentBound: the exact percentage holds only when `totalSize * 100 < 2^32`. `HwmPercent` models the 32-bit `size_t` wrap of `hwmBytes * 100`, so a larger buffer reports a smaller figure (`Scanner.HwmPercentWrapExample`). The bound of 100 holds for every size.
- For the length-byte tags 0x53/0x54 with no length byte left, the source reads `payload[idx]` one past the end. The model takes this as an explicit stop with no measurement (`BTHomeDecoder.NextObject`). Any byte read there would make the next guard stop the loop anyway.
- The loop's `idx + 1 > payload.size()` test can never be true under the loop guard, so it has no branch of its own.
- The encrypted path hands CCM the whole payload minus the MIC, counter bytes included, as ciphertext. This is stated (`BTHomeProperties.CiphertextIncludesCounter`), not corrected.
- The rest of the repository is not part of this model: src/blescan.cpp (an older copy of the scan and publish path), src/mqtt.cpp, src/main.cpp, src/i2cdevs.cpp, the display driver and the UI.
