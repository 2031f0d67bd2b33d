/** The peripheral catalog: which wiki peripheral name is reported when which
    device-page field mentions which token. */
module Peripherals {
  import opened Base
  import opened Strings

  /** One catalog entry. `gsmNameGiven` is the token passed to the
      constructor, `None` when the default applies. */
  datatype Peripheral = Peripheral(wikiSpecName: string, gsmField: string, gsmNameGiven: Option<string>)

  /** The token the entry matches, as fixed at construction time. */
  function GsmName(p: Peripheral): (r: string)
    ensures p.gsmNameGiven.Some? ==> r == p.gsmNameGiven.value
    ensures p.gsmNameGiven.None? ==> r == Lower(p.wikiSpecName) && Lower(r) == r
  {
    match p.gsmNameGiven
    case Some(name) => name
    case None => LowerIdempotent(p.wikiSpecName); Lower(p.wikiSpecName)
  }

  const PERIPHERALS: seq<Peripheral> := [
    Peripheral("A-GPS", "gps", None),
    Peripheral("Accelerometer", "sensors", None),
    Peripheral("Barometer", "sensors", None),
    Peripheral("BeiDou", "gps", Some("BDS")),
    Peripheral("Compass", "sensors", None),
    Peripheral("FM Radio", "radio", None),
    Peripheral("Fingerprint", "sensors", None),
    Peripheral("Galileo", "gps", None),
    Peripheral("GLONASS", "gps", None),
    Peripheral("GPS", "gps", Some("Yes")),
    Peripheral("NAVIC", "gps", None),
    Peripheral("SBAS", "gps", None),
    Peripheral("QZSS", "gps", None),
    Peripheral("Gesture sensor", "sensors", Some("gesture")),
    Peripheral("Gyroscope", "sensors", Some("Gyro")),
    Peripheral("MHL", "usb", None),
    Peripheral("MHL 2", "usb", None),
    Peripheral("NFC", "nfc", Some("Yes")),
    Peripheral("Proximity sensor", "sensors", Some("proximity"))
  ]

  /** No two entries report the same name. */
  predicate DistinctNames(catalog: seq<Peripheral>)
  {
    forall i, j :: 0 <= i < j < |catalog| ==> catalog[i].wikiSpecName != catalog[j].wikiSpecName
  }

  /** The fields the catalog reads. */
  const PeripheralFields: set<string> := {"gps", "sensors", "radio", "usb", "nfc"}

  /** The catalog has 19 entries with distinct names, all reading one of five fields. */
  lemma CatalogShape()
    ensures |PERIPHERALS| == 19
    ensures DistinctNames(PERIPHERALS)
    ensures forall i :: 0 <= i < |PERIPHERALS| ==> PERIPHERALS[i].gsmField in PeripheralFields
  {
    CatalogNamesDistinct();
  }

  /** No two catalog entries share a wiki name. */
  lemma CatalogNamesDistinct()
    ensures DistinctNames(PERIPHERALS)
  {
    var names: seq<string> :=
      ["A-GPS", "Accelerometer", "Barometer", "BeiDou", "Compass", "FM Radio", "Fingerprint", "Galileo",
       "GLONASS", "GPS", "NAVIC", "SBAS", "QZSS", "Gesture sensor", "Gyroscope", "MHL", "MHL 2", "NFC",
       "Proximity sensor"];
    assert forall i :: 0 <= i < |PERIPHERALS| ==> PERIPHERALS[i].wikiSpecName == names[i];
    assert forall i, j :: 0 <= i < j < |names| ==> names[i] != names[j];
  }

  /** Tokens given to the constructor are kept as they are; the others are
      the lower-cased names. */
  lemma CatalogTokens()
    ensures GsmName(PERIPHERALS[3]) == "BDS"
    ensures GsmName(PERIPHERALS[9]) == "Yes" && GsmName(PERIPHERALS[17]) == "Yes"
    ensures GsmName(PERIPHERALS[14]) == "Gyro"
    ensures GsmName(PERIPHERALS[0]) == "a-gps"
    ensures GsmName(PERIPHERALS[15]) == "mhl" && GsmName(PERIPHERALS[16]) == "mhl 2"
  {
    assert Lower("A-GPS") == "a-gps";
    assert Lower("MHL") == "mhl";
    assert Lower("MHL 2") == "mhl 2";
  }
}
