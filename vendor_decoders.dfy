/**
  The manufacturer-data decoders of src/BLEScanner.cpp (Ruuvi, Mopeka,
  TPMS0100, TPMS00AC, Otodata, Rotarex ELG, Mikrotik) and the BTHome
  adapter, with the battery curve `volt2percent`.

  Each decoder fills a fresh JSON document after a length gate, and leaves a
  field out when the raw reading is the vendor's "not available" sentinel.
  A decoder is modelled as a function from the manufacturer bytes to the
  document it writes, or None when its gate refuses the bytes (it then writes
  nothing).  Floating-point quantities are computed as exact reals.
*/
module VendorDecoders {
  import opened Wrappers
  import opened Bytes
  import opened Json
  import opened Hex
  import BT = BTHomeDecoder

  // ---------------------------------------------------------------------
  // Numeric helpers
  // ---------------------------------------------------------------------

  /** volt2percent: 2.2 V is empty, 2.85 V is full, linear in between, truncated to a whole percent. */
  function Volt2Percent(v: real): (p: int)
    ensures 0 <= p <= 100
    ensures v <= 2.2 ==> p == 0
    ensures v >= 2.85 ==> p == 100
  {
    var percent := (v - 2.2) / 0.65 * 100.0;
    if percent < 0.0 then 0
    else if percent > 100.0 then 100
    else percent.Floor
  }

  /** A higher voltage never reads as a lower battery percentage. */
  lemma Volt2PercentMonotone(v1: real, v2: real)
    requires v1 <= v2
    ensures Volt2Percent(v1) <= Volt2Percent(v2)
  {
    var p1, p2 := (v1 - 2.2) / 0.65 * 100.0, (v2 - 2.2) / 0.65 * 100.0;
    assert p1 <= p2;
    if 0.0 <= p1 && p2 <= 100.0 {
      assert p1.Floor as real <= p1 <= p2 < p2.Floor as real + 1.0;
    }
  }

  /** C's `round`: to the nearest integer, halves away from zero. */
  function Round(x: real): (n: int)
    ensures x - 0.5 <= n as real <= x + 0.5
    ensures x >= 0.0 ==> n >= 0
    ensures x < 0.0 ==> n <= 0
  {
    if x >= 0.0 then (x + 0.5).Floor else -((-x + 0.5).Floor)
  }

  /** The `round1` macro: rounding to one decimal place. */
  function Round1(x: real): (r: real)
    ensures x - 0.05 <= r <= x + 0.05
  {
    Round(x * 10.0) as real / 10.0
  }

  /** The integer part of a / 10, truncated toward zero as C's float-to-int cast does. */
  function TruncDiv10(a: int): (q: int)
    ensures a >= 0 ==> 0 <= 10 * q <= a < 10 * q + 10
    ensures a < 0 ==> 10 * q - 10 < a <= 10 * q <= 0
  {
    if a >= 0 then a / 10 else -((-a) / 10)
  }

  /** convert_8_8_to_float: an unsigned 8.8 fixed-point number, low byte first; FF FF reads as 0. */
  function Fixed88(data: seq<byte>, index: nat): (r: real)
    requires index + 2 <= |data|
    ensures 0.0 <= r < 256.0
    ensures !(data[index] == 0xFF && data[index + 1] == 0xFF) ==>
      r * 256.0 == (data[index + 1] as int * 256 + data[index]) as real
  {
    var frac := data[index];
    var base := data[index + 1];
    if frac == 0xFF && base == 0xFF then 0.0 else base as real + frac as real / 256.0
  }

  /** The character of one decimal digit. */
  function DigitChar(d: nat): (c: char)
    requires d < 10
    ensures '0' <= c <= '9' && (c - '0') as int == d
  {
    "0123456789"[d]
  }

  /** utoa(n, buffer, 10): the decimal digits of n, without leading zeros. */
  function Decimal(n: nat): (s: string)
    ensures |s| >= 1
    ensures forall i :: 0 <= i < |s| ==> '0' <= s[i] <= '9'
    ensures n >= 10 ==> s[0] != '0'
    decreases n
  {
    if n < 10 then [DigitChar(n)] else Decimal(n / 10) + [DigitChar(n % 10)]
  }

  /** The number a string of decimal digits stands for. */
  function DecimalValue(s: string): (n: nat)
    requires forall i :: 0 <= i < |s| ==> '0' <= s[i] <= '9'
  {
    if s == [] then 0 else DecimalValue(s[..|s| - 1]) * 10 + (s[|s| - 1] - '0') as int
  }

  /** The decimal text of n reads back as n. */
  lemma {:induction false} DecimalRoundTrip(n: nat)
    ensures DecimalValue(Decimal(n)) == n
    decreases n
  {
    if n >= 10 {
      DecimalRoundTrip(n / 10);
      var s := Decimal(n);
      assert s[..|s| - 1] == Decimal(n / 10);
    }
  }

  // ---------------------------------------------------------------------
  // Ruuvi (RAWv2, data format 5)
  // ---------------------------------------------------------------------

  /** The raw readings of a Ruuvi RAWv2 frame, before the sentinel tests. */
  datatype RuuviReadings = RuuviReadings(
    tempRaw: int, humidityRaw: nat, pressureRaw: nat,
    accX: int, accY: int, accZ: int,
    powerInfo: nat, move: nat, sequenceNumber: nat)

  /** The big-endian fields of bytes 3-19. */
  function RuuviReadingsOf(data: seq<byte>): (r: RuuviReadings)
    requires |data| >= 20
  {
    RuuviReadings(Int16BE(data, 3), Uint16BE(data, 5), Uint16BE(data, 7),
                  Int16BE(data, 9), Int16BE(data, 11), Int16BE(data, 13),
                  Uint16BE(data, 15), data[17], Uint16BE(data, 18))
  }

  /**
    The value decodeRuuvi writes under one member name, or None when it
    leaves that member out: each case is one of its sentinel tests.  The
    battery is the top 11 bits of the power word, the transmit power its
    low 5 bits.
  */
  function RuuviField(r: RuuviReadings, k: Key): Option<Value>
  {
    var batteryRaw := r.powerInfo / 32;
    var volt := (batteryRaw + 1600) as real / 1000.0;
    var txpRaw := r.powerInfo % 32;
    if k == Dev then Some(Str("Ruuvi"))
    else if k == Temp then (if r.tempRaw != -0x8000 then Some(Num(r.tempRaw as real * 0.005)) else None)
    else if k == Hum then (if r.humidityRaw != 0xFFFF then Some(Num(r.humidityRaw as real * 0.0025)) else None)
    else if k == Press then (if r.pressureRaw != 0xFFFF then Some(Num((r.pressureRaw as real + 50000.0) / 100.0)) else None)
    else if k == AccX then (if r.accX != -0x8000 then Some(Int(r.accX)) else None)
    else if k == AccY then (if r.accY != -0x8000 then Some(Int(r.accY)) else None)
    else if k == AccZ then (if r.accZ != -0x8000 then Some(Int(r.accZ)) else None)
    else if k == Bat then (if batteryRaw != 2047 then Some(Num(volt)) else None)
    else if k == BatPct then (if batteryRaw != 2047 then Some(Int(Volt2Percent(volt))) else None)
    else if k == TxPwr then (if txpRaw != 31 then Some(Int(txpRaw * 2 - 40)) else None)
    else if k == Move then (if r.move != 255 then Some(Int(r.move)) else None)
    else if k == Seq then (if r.sequenceNumber != 0xFFFF then Some(Int(r.sequenceNumber)) else None)
    else None
  }

  /** Every member name decodeRuuvi may write. */
  const RuuviKeys: set<Key> := {Dev, Temp, Hum, Press, AccX, AccY, AccZ, Bat, BatPct, TxPwr, Move, Seq}

  /** decodeRuuvi: at least 20 bytes with format byte 5; big-endian fields with sentinels. */
  function Ruuvi(data: seq<byte>): (r: Option<Doc>)
    ensures r.Some? <==> |data| >= 20 && data[2] == 5
  {
    if |data| < 20 || data[2] != 5 then None
    else
      var readings := RuuviReadingsOf(data);
      Some(map k | k in RuuviKeys && RuuviField(readings, k).Some? :: RuuviField(readings, k).value)
  }

  /**
    Which Ruuvi climate fields are written, in terms of the raw bytes: each
    reading is left out at its sentinel, 80 00 for the signed temperature and
    FF FF for the unsigned humidity and pressure.
  */
  lemma RuuviClimateFields(data: seq<byte>)
    requires |data| >= 20 && data[2] == 5
    ensures var d := Ruuvi(data).value;
      d.Keys <= RuuviKeys && d[Dev] == Str("Ruuvi")
      && (Temp in d <==> !(data[3] == 0x80 && data[4] == 0x00))
      && (Hum in d <==> !(data[5] == 0xFF && data[6] == 0xFF))
      && (Press in d <==> !(data[7] == 0xFF && data[8] == 0xFF))
  {
    Int16BESentinel(data, 3);
  }

  /**
    Which Ruuvi motion fields are written: the accelerations are left out at
    80 00, the movement counter at FF and the sequence number at FF FF.
  */
  lemma RuuviMotionFields(data: seq<byte>)
    requires |data| >= 20 && data[2] == 5
    ensures var d := Ruuvi(data).value;
      (AccX in d <==> !(data[9] == 0x80 && data[10] == 0x00))
      && (AccY in d <==> !(data[11] == 0x80 && data[12] == 0x00))
      && (AccZ in d <==> !(data[13] == 0x80 && data[14] == 0x00))
      && (Move in d <==> data[17] != 255)
      && (Seq in d <==> !(data[18] == 0xFF && data[19] == 0xFF))
  {
    Int16BESentinel(data, 9);
    Int16BESentinel(data, 11);
    Int16BESentinel(data, 13);
  }

  /**
    Which Ruuvi power fields are written: the battery is the top 11 bits and
    the transmit power the low 5 bits of bytes 15-16, each left out when all
    ones; the percentage is written exactly when the voltage is.
  */
  lemma RuuviPowerPresence(data: seq<byte>)
    requires |data| >= 20 && data[2] == 5
    ensures var d := Ruuvi(data).value;
      (Bat in d <==> !(data[15] == 0xFF && data[16] >= 0xE0))
      && (BatPct in d <==> Bat in d)
      && (TxPwr in d <==> data[16] % 32 != 31)
  {
    RuuviPowerWord(data);
  }

  /**
    The values decoded from the power word: the transmit power lies in
    [-40, 20] dBm in steps of 2, the battery voltage is 1.6 V plus the top 11
    bits in millivolts, and its percentage lies in 0..100.
  */
  lemma RuuviPowerFields(data: seq<byte>)
    requires |data| >= 20 && data[2] == 5
    ensures var d := Ruuvi(data).value;
      TxPwr in d ==>
        d[TxPwr] == Int(2 * (data[16] as int % 32) - 40) && -40 <= d[TxPwr].i <= 20 && d[TxPwr].i % 2 == 0
    ensures var d := Ruuvi(data).value;
      Bat in d ==>
        d[Bat] == Num(((data[15] as int * 8 + data[16] as int / 32) + 1600) as real / 1000.0)
        && 0 <= d[BatPct].i <= 100
  {
    RuuviPowerWord(data);
  }

  /** Bytes 15-16 as the power word: its top 11 bits and its low 5 bits. */
  lemma RuuviPowerWord(data: seq<byte>)
    requires |data| >= 20
    ensures Uint16BE(data, 15) / 32 == data[15] as int * 8 + data[16] as int / 32
    ensures Uint16BE(data, 15) % 32 == data[16] as int % 32
  {
    var powerInfo := Uint16BE(data, 15);
    assert powerInfo == data[15] as int * 256 + data[16];
  }

  /** A big-endian int16 is -32768 exactly when its bytes are 80 00. */
  lemma Int16BESentinel(data: seq<byte>, index: nat)
    requires index + 2 <= |data|
    ensures Int16BE(data, index) == -0x8000 <==> data[index] == 0x80 && data[index + 1] == 0x00
  {
  }

  // ---------------------------------------------------------------------
  // Mopeka tank sensor
  // ---------------------------------------------------------------------

  const PropaneCoefficient0: real := 0.573045
  const PropaneCoefficient1: real := -0.002822
  const PropaneCoefficient2: real := -0.00000535

  /** decodeMopeka: exactly 12 bytes. */
  function Mopeka(data: seq<byte>): (r: Option<Doc>)
    ensures r.Some? <==> |data| == 12
  {
    if |data| != 12 then None
    else
      var volt := (data[3] % 128) as real / 32.0;
      var rawTemp := (data[4] % 128) as real;
      var rawLevel := ((data[6] as int * 256 + data[5]) % 0x4000) as real;
      Some(map[
        Dev := Str("Mopeka"),
        Type := Int(data[2]),
        Bat := Num(volt),
        BatPct := Int(Volt2Percent(volt)),
        Sync := Bool(data[4] / 128 > 0),
        Temp := Num(rawTemp - 40.0),
        Quality := Int(data[6] / 64),
        AccX := Int(data[10]),
        AccY := Int(data[11]),
        LvlRaw := Num(rawLevel),
        LvlProp := Num(Round1(rawLevel * (PropaneCoefficient0 + PropaneCoefficient1 * rawTemp
                                             + PropaneCoefficient2 * rawTemp * rawTemp)))])
  }

  /**
    The Mopeka bit fields: the level is the low 14 bits of bytes 5-6 (so
    below 16384), the quality their top two bits, the sync flag bit 7 of
    byte 4 and the temperature its low 7 bits less 40.
  */
  lemma MopekaFields(data: seq<byte>)
    requires |data| == 12
    ensures var d := Mopeka(data).value;
      d[LvlRaw] == Num(((data[6] as int % 64) * 256 + data[5]) as real)
      && 0.0 <= d[LvlRaw].r < 16384.0
      && d[Quality].Int? && 0 <= d[Quality].i <= 3
      && d[Temp].Num? && -40.0 <= d[Temp].r <= 87.0
      && d[Sync] == Bool(data[4] >= 0x80)
      && 0 <= d[BatPct].i <= 100
  {
    var x := data[6] as int * 256 + data[5];
    assert x % 0x4000 == (data[6] as int % 64) * 256 + data[5] by {
      assert x == (data[6] as int / 64) * 0x4000 + ((data[6] as int % 64) * 256 + data[5]);
    }
  }

  // ---------------------------------------------------------------------
  // Tyre-pressure sensors
  // ---------------------------------------------------------------------

  /** decodeTPMS100: exactly 18 bytes; pressure in bar and temperature in degrees Celsius from int32 fields. */
  function Tpms0100(data: seq<byte>): (r: Option<Doc>)
    ensures r.Some? <==> |data| == 18
  {
    if |data| != 18 then None
    else
      Some(map[
        Dev := Str("TPMS0100"),
        Loc := Int(data[2] % 128),
        Press := Num(Int32LE(data, 8) as real / 100000.0),
        Temp := Num(Int32LE(data, 12) as real / 100.0),
        BatPct := Int(data[16]),
        Status := Int(data[17])])
  }

  /** decodeTPMS00AC: exactly 15 bytes; the temperature is 273.15 plus the hundredths in bytes 4-7. */
  function Tpms00AC(data: seq<byte>): (r: Option<Doc>)
    ensures r.Some? <==> |data| == 15
  {
    if |data| != 15 then None
    else
      Some(map[
        Dev := Str("TPMS00AC"),
        Loc := Int(data[6] % 128),
        Press := Num(Int32LE(data, 0) as real),
        Temp := Num(273.15 + Int32LE(data, 4) as real / 100.0),
        BatPct := Int(data[5]),
        Status := Int(0)])
  }

  /** Both tyre-pressure decoders write the same six fields, the location in 0..127. */
  lemma TpmsFields(data: seq<byte>)
    ensures |data| == 18 ==> var d := Tpms0100(data).value;
      d.Keys == {Dev, Loc, Press, Temp, BatPct, Status} && 0 <= d[Loc].i < 128
      && d[Press].r * 100000.0 == Int32LE(data, 8) as real
    ensures |data| == 15 ==> var d := Tpms00AC(data).value;
      d.Keys == {Dev, Loc, Press, Temp, BatPct, Status} && 0 <= d[Loc].i < 128
      && d[Status] == Int(0)
  {
  }

  // ---------------------------------------------------------------------
  // Otodata tank monitor
  // ---------------------------------------------------------------------

  /** decodeOtodata: a 21-byte level frame or a 24-byte identity frame; any other length is refused. */
  function Otodata(data: seq<byte>): (r: Option<Doc>)
    ensures r.Some? <==> |data| == 21 || |data| == 24
  {
    if |data| == 21 then
      Some(map[
        Dev := Str("Otodata"),
        Level := Num(Uint16LE(data, 11) as real / 100.0),
        Status := Int(Uint16LE(data, 13))])
    else if |data| == 24 then
      Some(map[
        Dev := Str("Otodata"),
        Serial := Str(Decimal(Uint32LE(data, 9))),
        Model := Str(Decimal(Uint16LE(data, 21)))])
    else None
  }

  /** The identity frame's serial and model read back as the little-endian numbers they were printed from. */
  lemma OtodataIdentity(data: seq<byte>)
    requires |data| == 24
    ensures var d := Otodata(data).value;
      d.Keys == {Dev, Serial, Model}
      && DecimalValue(d[Serial].s) == Uint32LE(data, 9)
      && DecimalValue(d[Model].s) == Uint16LE(data, 21)
  {
    DecimalRoundTrip(Uint32LE(data, 9));
    DecimalRoundTrip(Uint16LE(data, 21));
  }

  // ---------------------------------------------------------------------
  // Rotarex ELG
  // ---------------------------------------------------------------------

  /**
    The int16_t level of decodeRotarexELG: the signed reading of bytes 8-9
    divided by 10, truncated toward zero (the float quotient of an int16 by
    10 never lies within rounding distance of another integer).
  */
  function RotarexLevel(data: seq<byte>): (level: int)
    requires |data| >= 10
  {
    TruncDiv10(Int16LE(data, 8))
  }

  /** decodeRotarexELG: exactly 12 bytes; `connectable` is copied from the raw document. */
  function Rotarex(data: seq<byte>, raw: Doc): (r: Option<Doc>)
    ensures r.Some? <==> |data| == 12
  {
    if |data| != 12 then None
    else
      var level := RotarexLevel(data);
      var levelFields :=
        if level == -32768 then map[Status := Str("no sensor"), Level := Num(0.0)]
        else if level == 10000 then map[Status := Str("full"), Level := Num(level as real / 100.0)]
        else map[Level := Int(level), Status := Str("OK")];
      var volt := Int16LE(data, 10) as real / 1000.0;
      Some(map[Dev := Str("Rotarex")] + levelFields
        + map[Bat := Num(volt), BatPct := Int(Volt2Percent(volt)), Connectable := Get(raw, Connectable)])
  }

  /**
    The level lies in [-3276, 3276], so the "no sensor" (-32768) and "full"
    (10000) cases cannot happen: every frame reports status "OK" and an
    integer level.
  */
  lemma RotarexLevelRange(data: seq<byte>, raw: Doc)
    requires |data| == 12
    ensures -3276 <= RotarexLevel(data) <= 3276
    ensures var d := Rotarex(data, raw).value;
      d[Status] == Str("OK") && d[Level] == Int(RotarexLevel(data))
      && d[Connectable] == Get(raw, Connectable)
  {
    var x := Int16LE(data, 8);
    assert -0x8000 <= x < 0x8000;
  }

  // ---------------------------------------------------------------------
  // Mikrotik TG-BT5
  // ---------------------------------------------------------------------

  /**
    The value decodeMikrotik writes under one member name, or None when it
    leaves that member out.  A temperature of -32768 (bytes 00 80) marks the
    indoor model, which has no temperature; an odd user byte (byte 3) marks
    an encrypted frame, of which only the header is decoded; otherwise bits
    0-5 of the flags byte each add one `true` member.
  */
  function MikrotikField(data: seq<byte>, k: Key): Option<Value>
    requires |data| == 20
  {
    var t := Int16LE(data, 12);
    var encrypted := data[3] % 2 == 1;
    var flags := data[18];
    if k == Dev then Some(Str(if t != -32768 then "Mikrotik TG-BT5-OUT" else "Mikrotik TG-BT5-IN"))
    else if k == TempC then (if t != -32768 then Some(Num(t as real / 256.0)) else None)
    else if k == Version then Some(Int(data[2]))
    else if k == Encrypted then (if encrypted then Some(Bool(true)) else None)
    else if k == Salt then (if !encrypted then Some(Int(Uint16LE(data, 4))) else None)
    else if k == AccX then (if !encrypted then Some(Num(Fixed88(data, 6))) else None)
    else if k == AccY then (if !encrypted then Some(Num(Fixed88(data, 8))) else None)
    else if k == AccZ then (if !encrypted then Some(Num(Fixed88(data, 10))) else None)
    else if k == Uptime then (if !encrypted then Some(Int(Uint32LE(data, 14))) else None)
    else if k == ReedSwitch then (if !encrypted && flags % 2 == 1 then Some(Bool(true)) else None)
    else if k == AccelTilt then (if !encrypted && (flags / 2) % 2 == 1 then Some(Bool(true)) else None)
    else if k == AccelDrop then (if !encrypted && (flags / 4) % 2 == 1 then Some(Bool(true)) else None)
    else if k == ImpactX then (if !encrypted && (flags / 8) % 2 == 1 then Some(Bool(true)) else None)
    else if k == ImpactY then (if !encrypted && (flags / 16) % 2 == 1 then Some(Bool(true)) else None)
    else if k == ImpactZ then (if !encrypted && (flags / 32) % 2 == 1 then Some(Bool(true)) else None)
    else if k == Batt then (if !encrypted then Some(Int(data[19])) else None)
    else None
  }

  /** Every member name decodeMikrotik may write. */
  const MikrotikKeys: set<Key> :=
    {Dev, TempC, Version, Encrypted, Salt, AccX, AccY, AccZ, Uptime,
     ReedSwitch, AccelTilt, AccelDrop, ImpactX, ImpactY, ImpactZ, Batt}

  /** decodeMikrotik: exactly 20 bytes, read as an unencrypted advertisement. */
  function Mikrotik(data: seq<byte>): (r: Option<Doc>)
    ensures r.Some? <==> |data| == 20
  {
    if |data| != 20 then None
    else Some(map k | k in MikrotikKeys && MikrotikField(data, k).Some? :: MikrotikField(data, k).value)
  }

  /**
    The Mikrotik header: the outdoor model is the one whose temperature
    bytes are not 00 80, and only it reports a temperature; an odd user byte
    means encrypted, and then nothing but the header is decoded.
  */
  lemma MikrotikFields(data: seq<byte>)
    requires |data| == 20
    ensures var d := Mikrotik(data).value;
      d.Keys <= MikrotikKeys
      && (d[Dev] == Str("Mikrotik TG-BT5-OUT") <==> !(data[12] == 0x00 && data[13] == 0x80))
      && (TempC in d <==> d[Dev] == Str("Mikrotik TG-BT5-OUT"))
      && d[Version] == Int(data[2])
      && (Encrypted in d <==> data[3] % 2 == 1)
      && (Encrypted in d ==> d.Keys == {Dev, Version, Encrypted} + (if TempC in d then {TempC} else {}))
  {
    assert Int16LE(data, 12) == -32768 <==> data[12] == 0x00 && data[13] == 0x80 by {
      Int16LESign(data, 12);
    }
  }

  /**
    The Mikrotik body of an unencrypted frame: the salt, the three 8.8
    accelerations (each in [0, 256)), the uptime and the battery byte.
  */
  lemma MikrotikBody(data: seq<byte>)
    requires |data| == 20 && data[3] % 2 == 0
    ensures var d := Mikrotik(data).value;
      Encrypted !in d
      && d[Batt] == Int(data[19]) && d[Uptime] == Int(Uint32LE(data, 14))
      && d[Salt] == Int(Uint16LE(data, 4))
      && d[AccX].Num? && 0.0 <= d[AccX].r < 256.0
      && d[AccY].Num? && 0.0 <= d[AccY].r < 256.0
      && d[AccZ].Num? && 0.0 <= d[AccZ].r < 256.0
  {
  }

  /** The flags of an unencrypted Mikrotik frame: one `true` member for each of bits 0-5 that is set. */
  lemma MikrotikFlags(data: seq<byte>)
    requires |data| == 20 && data[3] % 2 == 0
    ensures var d := Mikrotik(data).value;
      (ReedSwitch in d <==> data[18] % 2 == 1)
      && (AccelTilt in d <==> data[18] / 2 % 2 == 1)
      && (AccelDrop in d <==> data[18] / 4 % 2 == 1)
      && (ImpactX in d <==> data[18] / 8 % 2 == 1)
      && (ImpactY in d <==> data[18] / 16 % 2 == 1)
      && (ImpactZ in d <==> data[18] / 32 % 2 == 1)
      && (forall k :: k in d && d[k] == Bool(true) ==> k in {ReedSwitch, AccelTilt, AccelDrop, ImpactX, ImpactY, ImpactZ})
  {
  }

  // ---------------------------------------------------------------------
  // BTHome
  // ---------------------------------------------------------------------

  /** One decoded BTHome measurement as the JSON object decodeBTHome writes. */
  function MeasurementJson(m: BT.Measurement): (v: Value)
  {
    Obj(map[ObjectId := Int(m.objectId), Name := Str(m.name), MeasuredValue := Num(m.Value()), Unit := Str(m.unit)])
  }

  /**
    The document decodeBTHome writes for a parser result: the version and
    the measurements, in the parser's order, but only when the data is
    BTHome and was decrypted (or needed no decryption).
  */
  function BTHomeDoc(res: BT.DecodeResult): (r: Option<Doc>)
  {
    if res.isBTHome && res.decryptionSucceeded then
      Some(map[BTHomeVersion := Int(res.bthomeVersion),
               Measurements := Arr(seq(|res.measurements|, i requires 0 <= i < |res.measurements| =>
                                           MeasurementJson(res.measurements[i])))])
    else None
  }

  /**
    decodeBTHome: hex-decode the raw document's service data and parse it
    with the raw document's MAC and the configured key.  A missing or
    non-hex "sd" fails.
  */
  function BTHome(raw: Doc, key: string, decrypt: BT.CcmDecrypt): (r: Option<Doc>)
  {
    match HexDecode(AsText(Get(raw, Sd)))
    case None => None
    case Some(sd) => BTHomeDoc(BT.Parse(sd, AsText(Get(raw, Mac)), key, decrypt))
  }

  /**
    A parser result is claimed exactly when it is BTHome and was decrypted,
    and then lists one object per measurement, in the parser's order, with
    its tag and its scaled value.
  */
  lemma BTHomeDocFields(res: BT.DecodeResult)
    ensures BTHomeDoc(res).Some? <==> res.isBTHome && res.decryptionSucceeded
    ensures BTHomeDoc(res).Some? ==>
      var d := BTHomeDoc(res).value;
      d.Keys == {BTHomeVersion, Measurements}
      && d[BTHomeVersion] == Int(res.bthomeVersion)
      && |d[Measurements].items| == |res.measurements|
      && forall i :: 0 <= i < |res.measurements| ==>
           d[Measurements].items[i].fields[ObjectId] == Int(res.measurements[i].objectId)
           && d[Measurements].items[i].fields[MeasuredValue] == Num(res.measurements[i].Value())
  {
  }

  /** decodeBTHome decodes service data exactly when it is hex text, and then as the parser reads it. */
  lemma BTHomeDecodes(raw: Doc, key: string, decrypt: BT.CcmDecrypt)
    ensures BTHome(raw, key, decrypt).Some? ==> HexDecode(AsText(Get(raw, Sd))).Some?
    ensures HexDecode(AsText(Get(raw, Sd))).Some? ==>
      BTHome(raw, key, decrypt) == BTHomeDoc(BT.Parse(HexDecode(AsText(Get(raw, Sd))).value, AsText(Get(raw, Mac)), key, decrypt))
  {
  }

  /** A raw document without service data is never decoded as BTHome. */
  lemma BTHomeNeedsServiceData(raw: Doc, key: string, decrypt: BT.CcmDecrypt)
    requires Sd !in raw
    ensures BTHome(raw, key, decrypt) == None
  {
    var sd := HexDecode("").value;
    assert |sd| == 0;
  }
}
