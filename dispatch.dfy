/**
  The record path of src/BLEScanner.cpp between the radio and the caller:
  the raw document the scan callback writes for one advertisement, the
  dispatch of `deliver` (BTHome service data first, then the vendor id of
  the manufacturer data), the metadata merge of `process`, and the colon
  stripping of the MAC it hands back.
*/
module Dispatch {
  import opened Wrappers
  import opened Bytes
  import opened Json
  import opened Hex
  import opened VendorDecoders
  import BT = BTHomeDecoder

  // ---------------------------------------------------------------------
  // The raw advertisement document
  // ---------------------------------------------------------------------

  /** One service-data element: its UUID as text and its bytes. */
  datatype ServiceData = ServiceData(uuid: string, data: seq<byte>)

  /**
    What the scan callback reads from BLEAdvertisedDevice: the address text,
    the RSSI, and each optional part (a missing part is None; the service
    data is every element the device reported, in order).  The transmit
    power is the byte the radio reports.
  */
  datatype Advertisement = Advertisement(
    address: string,
    rssi: int,
    name: Option<string>,
    manufacturerData: Option<seq<byte>>,
    serviceUuid: Option<string>,
    serviceData: seq<ServiceData>,
    txPower: Option<byte>)

  /** Arduino's String::toUpperCase: ASCII letters a-z to A-Z, every other character kept. */
  function UpperAscii(s: string): (u: string)
    ensures |u| == |s|
    ensures forall i :: 0 <= i < |u| ==> !('a' <= u[i] <= 'z')
    ensures forall i :: 0 <= i < |s| && !('a' <= s[i] <= 'z') ==> u[i] == s[i]
    ensures forall i :: 0 <= i < |s| && 'a' <= s[i] <= 'z' ==> 'A' <= u[i] <= 'Z' && u[i] as int - 'A' as int == s[i] as int - 'a' as int
  {
    seq(|s|, i requires 0 <= i < |s| => if 'a' <= s[i] <= 'z' then s[i] - 'a' + 'A' else s[i])
  }

  /** Text without lower-case letters is left as it is; in particular upper-casing twice is upper-casing once. */
  lemma UpperAsciiNoLower(s: string)
    requires forall i :: 0 <= i < |s| ==> !('a' <= s[i] <= 'z')
    ensures UpperAscii(s) == s
    ensures UpperAscii(UpperAscii(s)) == UpperAscii(s)
  {
  }

  lemma UpperAsciiIdempotent(s: string)
    ensures UpperAscii(UpperAscii(s)) == UpperAscii(s)
  {
    UpperAsciiNoLower(UpperAscii(s));
  }

  /**
    The value the scan callback writes under one member name, or None when
    it leaves that member out.  Only the last service-data element is kept;
    manufacturer and service data are written as upper-case hex text.
  */
  function RawField(adv: Advertisement, time: real, k: Key): Option<Value>
  {
    var hasServiceData := |adv.serviceData| > 0;
    if k == Mac then Some(Str(UpperAscii(adv.address)))
    else if k == Rssi then Some(Int(adv.rssi))
    else if k == Name then (if adv.name.Some? then Some(Str(adv.name.value)) else None)
    else if k == Mfd then
      (if adv.manufacturerData.Some? then Some(Str(HexEncode(adv.manufacturerData.value))) else None)
    else if k == SvcUuid then (if adv.serviceUuid.Some? then Some(Str(adv.serviceUuid.value)) else None)
    else if k == SvdUuid then
      (if hasServiceData then Some(Str(adv.serviceData[|adv.serviceData| - 1].uuid)) else None)
    else if k == Sd then
      (if hasServiceData then Some(Str(HexEncode(adv.serviceData[|adv.serviceData| - 1].data))) else None)
    else if k == TxPwr then (if adv.txPower.Some? then Some(Int(AsInt8(adv.txPower.value))) else None)
    else if k == Time then Some(Num(time))
    else None
  }

  /** The document ScanCallback::onResult builds for one advertisement; `time` is the clock reading. */
  function RawDoc(adv: Advertisement, time: real): (raw: Doc)
  {
    map k: Key | RawField(adv, time, k).Some? :: RawField(adv, time, k).value
  }

  /** The last service-data element, which the raw document keeps. */
  function LastServiceData(adv: Advertisement): (sd: ServiceData)
    requires |adv.serviceData| > 0
    ensures sd in adv.serviceData
  {
    adv.serviceData[|adv.serviceData| - 1]
  }

  // ---------------------------------------------------------------------
  // deliver
  // ---------------------------------------------------------------------

  /** Whether sub occurs in s starting at position i. */
  predicate OccursAt(s: string, sub: string, i: nat)
  {
    i + |sub| <= |s| && s[i..i + |sub|] == sub
  }

  /** String::indexOf(sub) != -1. */
  predicate Contains(s: string, sub: string)
  {
    exists i: nat | i <= |s| :: OccursAt(s, sub, i)
  }

  /** The vendor id: bytes 0 and 1 of the manufacturer data, low byte first. */
  function VendorId(m: seq<byte>): (id: nat)
    requires |m| >= 2
    ensures id < 0x1_0000 && id == Uint16LE(m, 0)
  {
    m[1] as int * 256 + m[0] as int
  }

  /** The vendor ids `deliver` has a decoder for. */
  const KnownVendorIds: set<nat> := {0x0499, 0x0059, 0x0100, 0x00AC, 0x03B1, 0xFFFF, 0x094F}

  /** The switch of `deliver` over the vendor id. */
  function DecodeVendor(id: nat, m: seq<byte>, raw: Doc): (r: Option<Doc>)
  {
    match id
    case 0x0499 => Ruuvi(m)
    case 0x0059 => Mopeka(m)
    case 0x0100 => Tpms0100(m)
    case 0x00AC => Tpms00AC(m)
    case 0x03B1 => Otodata(m)
    case 0xFFFF => Rotarex(m, raw)
    case 0x094F => Mikrotik(m)
    case _ => None
  }

  /** Whether a raw document is routed to the BTHome decoder: its service-data UUID mentions fcd2. */
  predicate IsBTHomeRoute(raw: Doc)
  {
    SvdUuid in raw && Contains(AsText(raw[SvdUuid]), "fcd2")
  }

  /**
    BLEScanner::deliver: the decoded document, or None when no decoder
    claims the record.  A BTHome service-data UUID decides alone; otherwise
    the manufacturer data must be hex text of at least two bytes.
  */
  function Deliver(raw: Doc, key: string, decrypt: BT.CcmDecrypt): (r: Option<Doc>)
  {
    if IsBTHomeRoute(raw) then BTHome(raw, key, decrypt)
    else if Mfd in raw then
      match HexDecode(AsText(raw[Mfd]))
      case Some(m) => if |m| >= 2 then DecodeVendor(VendorId(m), m, raw) else None
      case None => None
    else None
  }

  // ---------------------------------------------------------------------
  // process: the output document and the MAC text
  // ---------------------------------------------------------------------

  /**
    The value of one member of a decoded output: mac, time and rssi are
    always copied from the raw document (null if it has none), name and
    txpwr only when it has them, and every other member is the decoder's.
  */
  function MergedField(raw: Doc, decoded: Doc, k: Key): Option<Value>
  {
    if k == Mac || k == Time || k == Rssi then Some(Get(raw, k))
    else if (k == Name || k == TxPwr) && k in raw then Some(raw[k])
    else if k in decoded then Some(decoded[k])
    else None
  }

  /** The document `process` hands back: the merged decoded document, or the raw one when nothing decoded. */
  function Output(raw: Doc, decoded: Option<Doc>): (out: Doc)
  {
    match decoded
    case None => raw
    case Some(d) => map k: Key | MergedField(raw, d, k).Some? :: MergedField(raw, d, k).value
  }

  /** String::replace(":", ""): the text with every colon removed. */
  function StripColons(s: string): (r: string)
    ensures |r| <= |s|
    ensures forall i :: 0 <= i < |r| ==> r[i] != ':'
  {
    if s == [] then []
    else StripColons(s[..|s| - 1]) + (if s[|s| - 1] == ':' then [] else [s[|s| - 1]])
  }

  // ---------------------------------------------------------------------
  // Properties of the raw document
  // ---------------------------------------------------------------------

  /**
    The raw document has exactly the members the advertisement supplies:
    mac, rssi and time always, each optional part when present, and both
    service-data members when there is service data.  It never has
    `connectable`.
  */
  lemma RawDocMembers(adv: Advertisement, time: real)
    ensures var raw := RawDoc(adv, time);
      Mac in raw && Rssi in raw && Time in raw && Connectable !in raw
      && (Name in raw <==> adv.name.Some?)
      && (Mfd in raw <==> adv.manufacturerData.Some?)
      && (SvcUuid in raw <==> adv.serviceUuid.Some?)
      && (SvdUuid in raw <==> |adv.serviceData| > 0)
      && (Sd in raw <==> |adv.serviceData| > 0)
      && (TxPwr in raw <==> adv.txPower.Some?)
  {
  }

  /** The raw values: the upper-cased address, the clock reading and the signed transmit power. */
  lemma RawDocValues(adv: Advertisement, time: real)
    ensures var raw := RawDoc(adv, time);
      raw[Mac] == Str(UpperAscii(adv.address))
      && raw[Time] == Num(time)
      && (adv.txPower.Some? ==> raw[TxPwr].Int? && -128 <= raw[TxPwr].i < 128)
  {
  }

  /** Of several service-data elements, the raw document keeps the last, its bytes as hex text. */
  lemma RawDocServiceData(adv: Advertisement, time: real)
    requires |adv.serviceData| > 0
    ensures var raw := RawDoc(adv, time);
      raw[SvdUuid] == Str(LastServiceData(adv).uuid) && raw[Sd] == Str(HexEncode(LastServiceData(adv).data))
  {
  }

  /** The manufacturer data is kept as the hex text of its bytes. */
  lemma RawDocManufacturer(adv: Advertisement, time: real)
    requires adv.manufacturerData.Some?
    ensures var raw := RawDoc(adv, time);
      Mfd in raw && raw[Mfd] == Str(HexEncode(adv.manufacturerData.value))
  {
  }

  /** Without BTHome service data the raw document does not take the BTHome route. */
  lemma RawDocNotBTHome(adv: Advertisement, time: real)
    requires !(|adv.serviceData| > 0 && Contains(LastServiceData(adv).uuid, "fcd2"))
    ensures !IsBTHomeRoute(RawDoc(adv, time))
  {
    RawDocMembers(adv, time);
    if |adv.serviceData| > 0 {
      RawDocServiceData(adv, time);
    }
  }

  // ---------------------------------------------------------------------
  // Properties of deliver
  // ---------------------------------------------------------------------

  /** The length gate of each vendor decoder, by vendor id. */
  predicate VendorGate(id: nat, m: seq<byte>)
  {
    (id == 0x0499 && |m| >= 20 && m[2] == 5)
    || (id == 0x0059 && |m| == 12)
    || (id == 0x0100 && |m| == 18)
    || (id == 0x00AC && |m| == 15)
    || (id == 0x03B1 && (|m| == 21 || |m| == 24))
    || (id == 0xFFFF && |m| == 12)
    || (id == 0x094F && |m| == 20)
  }

  /**
    A vendor id decodes exactly when it is one of the seven known ids and
    that vendor's gate accepts the bytes; any other id is never decoded.
  */
  lemma DecodeVendorGates(id: nat, m: seq<byte>, raw: Doc)
    ensures DecodeVendor(id, m, raw).Some? <==> id in KnownVendorIds && VendorGate(id, m)
  {
  }

  /** Mopeka and Rotarex frames are both 12 bytes long; only the vendor id tells them apart. */
  lemma TwelveByteFramesByVendor(m: seq<byte>, raw: Doc)
    requires |m| == 12
    ensures DecodeVendor(0x0059, m, raw) == Mopeka(m) && DecodeVendor(0x0059, m, raw).value[Dev] == Str("Mopeka")
    ensures DecodeVendor(0xFFFF, m, raw) == Rotarex(m, raw) && DecodeVendor(0xFFFF, m, raw).value[Dev] == Str("Rotarex")
  {
  }

  /**
    Service data whose UUID mentions fcd2 is decoded as BTHome, whatever
    manufacturer data the record also carries: the BTHome parser sees the
    service-data bytes and the upper-cased address (BTHomeDocFields says
    which results are claimed).
  */
  lemma BTHomeTakesPrecedence(adv: Advertisement, time: real, key: string, decrypt: BT.CcmDecrypt)
    requires |adv.serviceData| > 0 && Contains(LastServiceData(adv).uuid, "fcd2")
    ensures Deliver(RawDoc(adv, time), key, decrypt)
         == BTHomeDoc(BT.Parse(LastServiceData(adv).data, UpperAscii(adv.address), key, decrypt))
  {
    RawDocMembers(adv, time);
    RawDocValues(adv, time);
    RawDocServiceData(adv, time);
    BTHomeRoute(RawDoc(adv, time), key, decrypt, LastServiceData(adv), UpperAscii(adv.address));
  }

  /** A document whose service data UUID mentions fcd2 is parsed as BTHome from its `sd` and `mac` text. */
  lemma BTHomeRoute(raw: Doc, key: string, decrypt: BT.CcmDecrypt, svd: ServiceData, mac: string)
    requires Contains(svd.uuid, "fcd2")
    requires SvdUuid in raw && raw[SvdUuid] == Str(svd.uuid)
    requires Sd in raw && raw[Sd] == Str(HexEncode(svd.data))
    requires Mac in raw && raw[Mac] == Str(mac)
    ensures Deliver(raw, key, decrypt) == BTHomeDoc(BT.Parse(svd.data, mac, key, decrypt))
  {
    DecodeEncode(svd.data);
    assert IsBTHomeRoute(raw);
    BTHomeDecodes(raw, key, decrypt);
  }

  /**
    A record that is not BTHome and carries manufacturer data of at least
    two bytes is handed to the decoder its vendor id selects, on exactly
    the bytes the radio reported (the hex text of the raw document reads
    back as them).
  */
  lemma VendorDispatch(adv: Advertisement, time: real, key: string, decrypt: BT.CcmDecrypt)
    requires adv.manufacturerData.Some? && |adv.manufacturerData.value| >= 2
    requires !(|adv.serviceData| > 0 && Contains(LastServiceData(adv).uuid, "fcd2"))
    ensures var m := adv.manufacturerData.value;
      Deliver(RawDoc(adv, time), key, decrypt) == DecodeVendor(VendorId(m), m, RawDoc(adv, time))
  {
    RawDocNotBTHome(adv, time);
    RawDocManufacturer(adv, time);
    VendorRoute(RawDoc(adv, time), key, decrypt, adv.manufacturerData.value);
  }

  /** A document off the BTHome route whose `mfd` is the hex text of m goes to m's vendor decoder. */
  lemma VendorRoute(raw: Doc, key: string, decrypt: BT.CcmDecrypt, m: seq<byte>)
    requires !IsBTHomeRoute(raw) && |m| >= 2
    requires Mfd in raw && raw[Mfd] == Str(HexEncode(m))
    ensures Deliver(raw, key, decrypt) == DecodeVendor(VendorId(m), m, raw)
  {
    DecodeEncode(m);
  }

  /** Without BTHome service data, manufacturer data shorter than two bytes (or none) is never decoded. */
  lemma NoVendorIdNotDecoded(adv: Advertisement, time: real, key: string, decrypt: BT.CcmDecrypt)
    requires adv.manufacturerData.None? || |adv.manufacturerData.value| < 2
    requires !(|adv.serviceData| > 0 && Contains(LastServiceData(adv).uuid, "fcd2"))
    ensures Deliver(RawDoc(adv, time), key, decrypt) == None
  {
    RawDocNotBTHome(adv, time);
    RawDocMembers(adv, time);
    if adv.manufacturerData.Some? {
      RawDocManufacturer(adv, time);
      DecodeEncode(adv.manufacturerData.value);
    }
  }

  /**
    The scan callback never writes `connectable`, so a decoded Rotarex
    record always reports it as null.
  */
  lemma RotarexConnectableIsNull(adv: Advertisement, time: real, key: string, decrypt: BT.CcmDecrypt)
    requires adv.manufacturerData.Some? && |adv.manufacturerData.value| == 12
    requires VendorId(adv.manufacturerData.value) == 0xFFFF
    requires !(|adv.serviceData| > 0 && Contains(LastServiceData(adv).uuid, "fcd2"))
    ensures Deliver(RawDoc(adv, time), key, decrypt).Some?
    ensures Connectable in Deliver(RawDoc(adv, time), key, decrypt).value
    ensures Deliver(RawDoc(adv, time), key, decrypt).value[Connectable] == Null
  {
    var m, raw := adv.manufacturerData.value, RawDoc(adv, time);
    VendorDispatch(adv, time, key, decrypt);
    RawDocMembers(adv, time);
    RotarexCopiesConnectable(m, raw, Deliver(raw, key, decrypt));
  }

  /** A Rotarex document's `connectable` is the raw document's. */
  lemma RotarexCopiesConnectable(m: seq<byte>, raw: Doc, out: Option<Doc>)
    requires |m| == 12 && VendorId(m) == 0xFFFF && out == DecodeVendor(VendorId(m), m, raw)
    ensures out.Some? && Connectable in out.value && out.value[Connectable] == Get(raw, Connectable)
  {
  }

  // ---------------------------------------------------------------------
  // Properties of the output document
  // ---------------------------------------------------------------------

  /** An undecoded record is handed back as its raw document. */
  lemma UndecodedIsRaw(raw: Doc)
    ensures Output(raw, None) == raw
  {
  }

  /**
    A decoded output carries the record's mac, time and rssi, its name and
    transmit power exactly when the raw document has them, and every other
    member exactly as the decoder wrote it.
  */
  lemma DecodedCarriesMetadata(raw: Doc, d: Doc)
    ensures var out := Output(raw, Some(d));
      out[Mac] == Get(raw, Mac) && out[Time] == Get(raw, Time) && out[Rssi] == Get(raw, Rssi)
      && (Name in raw ==> out[Name] == raw[Name])
      && (TxPwr in raw ==> out[TxPwr] == raw[TxPwr])
      && (Name in out <==> Name in raw || Name in d)
      && (TxPwr in out <==> TxPwr in raw || TxPwr in d)
  {
  }

  /** Every member other than the metadata is the decoder's own. */
  lemma DecodedKeepsDecoderFields(raw: Doc, d: Doc, k: Key)
    requires k !in {Mac, Time, Rssi, Name, TxPwr}
    ensures k in Output(raw, Some(d)) <==> k in d
    ensures k in d ==> Output(raw, Some(d))[k] == d[k]
  {
  }

  // ---------------------------------------------------------------------
  // Properties of the MAC text
  // ---------------------------------------------------------------------

  /** Stripping colons distributes over concatenation. */
  lemma {:induction false} StripColonsAppend(a: string, b: string)
    ensures StripColons(a + b) == StripColons(a) + StripColons(b)
    decreases |b|
  {
    if b == [] {
      assert a + b == a;
    } else {
      var b' := b[..|b| - 1];
      assert (a + b)[..|a + b| - 1] == a + b';
      StripColonsAppend(a, b');
    }
  }

  /** Text without colons is kept whole. */
  lemma {:induction false} StripColonsNoColon(s: string)
    requires forall i :: 0 <= i < |s| ==> s[i] != ':'
    ensures StripColons(s) == s
    decreases |s|
  {
    if s != [] {
      StripColonsNoColon(s[..|s| - 1]);
    }
  }

  /** Stripping is idempotent: the stripped MAC has no colon left to strip. */
  lemma StripColonsIdempotent(s: string)
    ensures StripColons(StripColons(s)) == StripColons(s)
  {
    StripColonsNoColon(StripColons(s));
  }
}
