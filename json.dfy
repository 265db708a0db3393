/**
  The JSON documents src/BLEScanner.cpp passes around (ArduinoJson's
  JsonDocument): null, booleans, integers, numbers, strings, arrays and
  objects.  Numbers that the source computes in floating point are kept as
  exact reals.

  Every member name the program reads or writes is one of a fixed set of 48,
  so a member name is modelled as a `Key`, the number of one of the named
  constants below, and `Label` gives its text.
*/
module Json {
  /** A member name, as its index in `Labels`. */
  newtype Key = k: int | 0 <= k < 48

  // the raw advertisement document written by the scan callback
  const Mac: Key := 0
  const Rssi: Key := 1
  const Name: Key := 2
  const Mfd: Key := 3
  const SvcUuid: Key := 4
  const SvdUuid: Key := 5
  const Sd: Key := 6
  const TxPwr: Key := 7
  const Time: Key := 8
  // read by the Rotarex decoder, never written
  const Connectable: Key := 9
  // the decoders' documents
  const Dev: Key := 10
  const Temp: Key := 11
  const Hum: Key := 12
  const Press: Key := 13
  const AccX: Key := 14
  const AccY: Key := 15
  const AccZ: Key := 16
  const Bat: Key := 17
  const BatPct: Key := 18
  const Move: Key := 19
  const Seq: Key := 20
  const Type: Key := 21
  const Sync: Key := 22
  const Quality: Key := 23
  const LvlRaw: Key := 24
  const LvlProp: Key := 25
  const Loc: Key := 26
  const Status: Key := 27
  const Level: Key := 28
  const Serial: Key := 29
  const Model: Key := 30
  const TempC: Key := 31
  const Version: Key := 32
  const Encrypted: Key := 33
  const Salt: Key := 34
  const Uptime: Key := 35
  const ReedSwitch: Key := 36
  const AccelTilt: Key := 37
  const AccelDrop: Key := 38
  const ImpactX: Key := 39
  const ImpactY: Key := 40
  const ImpactZ: Key := 41
  const Batt: Key := 42
  // the BTHome document and its measurement objects
  const BTHomeVersion: Key := 43
  const Measurements: Key := 44
  const ObjectId: Key := 45
  const MeasuredValue: Key := 46
  const Unit: Key := 47

  /** The member names as they appear in the JSON text, indexed by `Key`. */
  const Labels: seq<string> := [
    "mac", "rssi", "name", "mfd", "svcuuid", "svduuid", "sd", "txpwr", "time", "connectable",
    "dev", "temp", "hum", "press", "accx", "accy", "accz", "bat", "batpct", "move", "seq", "type",
    "sync", "quality", "lvl_raw", "lvl_prop", "loc", "status", "level", "serial", "model", "tempc",
    "version", "encrypted", "salt", "uptime", "reed_switch", "accel_tilt", "accel_drop",
    "impact_x", "impact_y", "impact_z", "batt", "bthome_version", "measurements", "object_id",
    "value", "unit"]

  /** The member name of a key as it appears in the JSON text. */
  function Label(k: Key): string
  {
    Labels[k]
  }

  datatype Value =
    | Null
    | Bool(b: bool)
    | Int(i: int)
    | Num(r: real)
    | Str(s: string)
    | Arr(items: seq<Value>)
    | Obj(fields: map<Key, Value>)

  type Doc = map<Key, Value>

  /** `doc[key]` on a document: the value stored under key, or null when there is none. */
  function Get(doc: Doc, key: Key): Value
  {
    if key in doc then doc[key] else Null
  }

  /** The text of a string member; any other value reads as the empty string. */
  function AsText(v: Value): string
  {
    if v.Str? then v.s else ""
  }
}
