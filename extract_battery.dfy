/** `parse_battery`: removability, capacity and technology of the battery. */
module BatteryExtraction {
  import opened Base
  import opened Strings
  import opened Table

  /** The `battery` contribution. A missing or empty field stops the
      extraction where it is read, keeping the keys set before it. */
  function BatteryInfo(t: TextTable): (r: Partial)
    ensures r.Keys == {"battery"} && r["battery"].Nested?
    ensures r["battery"].fields.Keys <= {"removable", "capacity", "tech"}
    ensures var out := r["battery"].fields;
            var desc := FirstOf(t, "batdescription1");
            && ("removable" in out <==> desc.Ok? && Contains(Lower(desc.value), "non-removable"))
            && ("removable" in out ==> out["removable"] == Bool(false))
    ensures var out := r["battery"].fields;
            var size := FirstOf(t, "batsize-hl");
            && ("capacity" in out <==> FirstOf(t, "batdescription1").Ok? && size.Ok?)
            && ("capacity" in out ==> out["capacity"] == Str(size.value))
    ensures var out := r["battery"].fields;
            var tech := FirstOf(t, "battype-hl");
            && ("tech" in out <==> FirstOf(t, "batdescription1").Ok? && FirstOf(t, "batsize-hl").Ok? && tech.Ok?)
            && ("tech" in out ==> out["tech"] == Str(tech.value))
  {
    var out :=
      match FirstOf(t, "batdescription1")
      case Err(_) => map[]
      case Ok(desc) =>
        var removable: map<string, Value> :=
          if Contains(Lower(desc), "non-removable") then map["removable" := Bool(false)] else map[];
        match FirstOf(t, "batsize-hl")
        case Err(_) => removable
        case Ok(size) =>
          match FirstOf(t, "battype-hl")
          case Err(_) => removable["capacity" := Str(size)]
          case Ok(tech) => removable["capacity" := Str(size)]["tech" := Str(tech)];
    map["battery" := Nested(out)]
  }

  /** `parse_battery` fills `out` key by key until a lookup fails. */
  method ParseBattery(t: TextTable) returns (part: Partial)
    ensures part == BatteryInfo(t)
  {
    var out: map<string, Value> := map[];
    if "batdescription1" in t && t["batdescription1"] != [] {
      if Contains(Lower(t["batdescription1"][0]), "non-removable") {
        out := out["removable" := Bool(false)];
      }
      if "batsize-hl" in t && t["batsize-hl"] != [] {
        out := out["capacity" := Str(t["batsize-hl"][0])];
        if "battype-hl" in t && t["battype-hl"] != [] {
          out := out["tech" := Str(t["battype-hl"][0])];
        }
      }
    }
    part := map["battery" := Nested(out)];
  }
}
