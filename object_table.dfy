/**
  The object-code table of the BTHome v2 decoder: for every one-byte object
  tag, whether a length byte follows it in the stream, its fixed data length,
  its scale factor, its signedness, its unit and its name.  Each function is
  one switch statement of lib/BTHomeDecoder/BTHomeDecoder.cpp, with the same
  case groups in the same order.  The float factors of the source are the
  exact decimals they are written as.
*/
module ObjectTable {
  import opened Bytes

  /** Tags whose data length is carried by a length byte in the stream. */
  function HasLengthByte(id: byte): (b: bool)
  {
    match id
    case 0x53 | 0x54 => true
    case _ => false
  }

  /** The fixed data length of a tag; -1 marks a tag the decoder does not know. */
  function ObjectDataLength(id: byte): (n: int)
    ensures n in {-1, 1, 2, 3, 4}
  {
    match id
    case 0x00 => 1
    case 0x01 => 1
    case 0x02 | 0x03 | 0x08 | 0x0C | 0x12 | 0x13 | 0x14 | 0x3C
      | 0x3F | 0x40 | 0x41 | 0x43 | 0x44 | 0x45 | 0x46 | 0x47
      | 0x48 | 0x51 | 0x52 | 0x56 | 0x5E | 0x5F
      => 2
    case 0x04 | 0x05 | 0x0A | 0x0B | 0x42 | 0x49 | 0x4B => 3
    case 0x0F | 0x10 | 0x11 | 0x15 | 0x16 | 0x17 | 0x18 | 0x19
      | 0x1A | 0x1B | 0x1C | 0x1D | 0x1E | 0x1F | 0x20 | 0x21
      | 0x22 | 0x23 | 0x24 | 0x25 | 0x26 | 0x27 | 0x28 | 0x29
      | 0x2A | 0x2B | 0x2C | 0x2D | 0x2E | 0x2F | 0x3A | 0x57
      | 0x58
      => 1
    case 0x3E | 0x4C | 0x4D | 0x4E | 0x4F | 0x50 | 0x5B | 0x5C => 4
    case 0x5D | 0x61 => 2
    case 0x60 => 1
    case 0x62 | 0x63 => 4
    case 0xF0 => 2
    case 0xF1 => 4
    case 0xF2 => 3
    case _ => -1
  }

  /** The scale factor applied to the raw integer, as an exact decimal. */
  function ObjectFactor(id: byte): (f: real)
    ensures f in {1.0, 0.1, 0.01, 0.001, 0.000001}
  {
    match id
    case 0x01 => 1.0
    case 0x02 | 0x03 | 0x08 | 0x14 => 0.01
    case 0x04 | 0x0B => 0.01
    case 0x05 => 0.01
    case 0x0A | 0x0C => 0.001
    case 0x2E => 1.0
    case 0x2F => 1.0
    case 0x3F | 0x5F => 0.1
    case 0x45 | 0x46 | 0x47 | 0x4A | 0x41 => 0.1
    case 0x42 | 0x43 | 0x4B | 0x4C | 0x4D | 0x4E | 0x4F | 0x51 | 0x52 | 0x5D => 0.001
    case 0x44 | 0x5C | 0x5E => 0.01
    case 0x62 | 0x63 => 0.000001
    case _ => 1.0
  }

  /** Whether the raw integer of a tag is read as signed. */
  function ObjectSigned(id: byte): (b: bool)
  {
    match id
    case 0x02 | 0x08 | 0x3F | 0x45 | 0x57 | 0x58 | 0x5A | 0x5B | 0x5C | 0x5D | 0x62 | 0x63 => true
    case _ => false
  }

  /** The unit string attached to a measurement; "" when none. */
  function ObjectUnit(id: byte): (u: string)
  {
    match id
    case 0x01 | 0x03 | 0x14 | 0x2E | 0x2F => "percent"
    case 0x02 | 0x08 | 0x45 => "°C"
    case 0x04 => "hPa"
    case 0x05 => "lux"
    case 0x06 => "kg"
    case 0x07 => "lb"
    case 0x0A | 0x4D => "kWh"
    case 0x0B => "W"
    case 0x0C | 0x4A => "V"
    case 0x0D | 0x0E | 0x13 => "ug/m3"
    case 0x12 => "ppm"
    case 0x3F => "°"
    case 0x40 => "mm"
    case 0x41 => "m"
    case 0x42 => "s"
    case 0x43 => "A"
    case 0x44 | 0x62 => "m/s"
    case 0x47 | 0x4E | 0x4F => "L"
    case 0x48 => "mL"
    case 0x49 => "m3/hr"
    case 0x4B | 0x4C => "m3"
    case 0x51 | 0x63 => "m/s²"
    case 0x52 => "°/s"
    case 0x2D => "open"
    case _ => ""
  }

  /** The measurement name of a tag; "unknown" when none. */
  function ObjectName(id: byte): (s: string)
    ensures s != ""
  {
    match id
    case 0x00 => "packet_id"
    case 0x01 => "battery_percent"
    case 0x02 => "temperature"
    case 0x03 => "humidity"
    case 0x04 => "pressure"
    case 0x05 => "illuminance"
    case 0x0A => "energy"
    case 0x0B => "power"
    case 0x0C => "battery_voltage"
    case 0x12 => "CO2"
    case 0x13 => "VOC"
    case 0x14 => "moisture"
    case 0x0F => "generic_boolean"
    case 0x10 => "power_binary"
    case 0x11 => "opening"
    case 0x15 => "battery_low"
    case 0x16 => "battery_charging"
    case 0x17 => "carbon_monoxide"
    case 0x18 => "cold"
    case 0x19 => "connectivity"
    case 0x1A => "door"
    case 0x1B => "garage_door"
    case 0x1C => "gas_detected"
    case 0x1D => "heat"
    case 0x1E => "light"
    case 0x1F => "lock"
    case 0x20 => "moisture_binary"
    case 0x21 => "motion"
    case 0x22 => "moving"
    case 0x23 => "occupancy"
    case 0x24 => "plug"
    case 0x25 => "presence"
    case 0x26 => "problem"
    case 0x27 => "running"
    case 0x28 => "safety"
    case 0x29 => "smoke"
    case 0x2A => "sound"
    case 0x2B => "tamper"
    case 0x2C => "vibration"
    case 0x2D => "window"
    case 0x2E => "humidity"
    case 0x2F => "soil_moisture"
    case 0x3A => "button"
    case 0x3C => "dimmer"
    case 0x3F => "rotation"
    case 0x40 => "distance_mm"
    case 0x41 => "distance_m"
    case 0x42 => "duration_sec"
    case 0x43 => "current_A"
    case 0x44 => "speed_mps"
    case 0x45 => "temperature_0.1C"
    case 0x46 => "UV_index"
    case 0x47 => "volume_liters"
    case 0x48 => "volume_milliliters"
    case 0x49 => "flow_rate"
    case 0x4A => "voltage_V"
    case 0x4B => "gas_m3"
    case 0x50 => "timestamp"
    case 0x53 => "text"
    case 0x54 => "raw"
    case 0x55 => "volume_storage"
    case 0x56 => "conductivity"
    case 0x57 | 0x58 => "temperature"
    case 0x59 | 0x5A | 0x5B => "count"
    case 0x5C => "power"
    case 0x5D => "current"
    case 0x5E => "direction"
    case 0x5F => "precipitation"
    case 0x60 => "channel"
    case 0x61 => "rotational_speed"
    case 0x62 => "speed"
    case 0x63 => "acceleration"
    case 0xF0 => "device_type_id"
    case 0xF1 | 0xF2 => "firmware_version"
    case _ => "unknown"
  }

  /**
    The two sources of a data length never overlap: a tag that carries a
    length byte has no fixed table length.
  */
  lemma LengthSourcesDisjoint(id: byte)
    ensures HasLengthByte(id) <==> id == 0x53 || id == 0x54
    ensures HasLengthByte(id) ==> ObjectDataLength(id) == -1
  {
  }

  /**
    The five switch statements are not kept in step: these tags decode (they
    have a fixed length) but are reported under the name "unknown".
  */
  lemma UnnamedDecodableTags(id: byte)
    requires id in {0x08, 0x3E, 0x4C, 0x4D, 0x4E, 0x4F, 0x51, 0x52}
    ensures ObjectDataLength(id) != -1 && ObjectName(id) == "unknown"
  {
  }

  /** No other decodable tag is reported as "unknown". */
  lemma OnlyUnnamedDecodableTags(id: byte)
    requires ObjectDataLength(id) != -1 && ObjectName(id) == "unknown"
    ensures id in {0x08, 0x3E, 0x4C, 0x4D, 0x4E, 0x4F, 0x51, 0x52}
  {
  }

  /**
    And these tags have a name, but no length, so the object loop stops at
    them: 0x4A, 0x55, 0x59 and 0x5A (0x53 and 0x54 take their length from the
    stream instead).
  */
  lemma NamedUndecodableTags(id: byte)
    ensures (ObjectDataLength(id) == -1 && !HasLengthByte(id) && ObjectName(id) != "unknown")
        <==> id in {0x4A, 0x55, 0x59, 0x5A}
  {
  }

  /**
    A tag no case mentions gets every default: no length (so the loop stops
    at it), factor 1, unsigned, no unit and the name "unknown".
  */
  lemma UnlistedTagDefaults(id: byte)
    requires 0x64 <= id < 0xF0 || 0xF3 <= id
    ensures !HasLengthByte(id) && ObjectDataLength(id) == -1
    ensures ObjectFactor(id) == 1.0 && !ObjectSigned(id)
    ensures ObjectUnit(id) == "" && ObjectName(id) == "unknown"
  {
  }
}
