/** `parse_screen_res`: the pixel density and the resolution of the screen. */
module DisplayExtraction {
  import opened Base
  import opened Strings
  import opened Table
  import opened Patterns

  /** `spec_tags.get('displayresolution', [''])[0]`: a missing field reads as
      the empty string, but a present field with no fragment fails. */
  function ResolutionText(t: TextTable): (r: Result<string>)
    ensures r.Err? <==> FirstOf(t, "displayresolution") == Err(IndexError)
    ensures r.Err? ==> r.fault == IndexError
    ensures "displayresolution" !in t ==> r == Ok("")
    ensures FirstOf(t, "displayresolution").Ok? ==> r == FirstOf(t, "displayresolution")
  {
    if "displayresolution" !in t then Ok("")
    else if t["displayresolution"] == [] then Err(IndexError)
    else Ok(t["displayresolution"][0])
  }

  /** What `parse_screen_res` reports: each key is set exactly when its
      pattern occurs in the resolution text. */
  function ScreenResolution(t: TextTable): (r: Result<Partial>)
    ensures r.Err? <==> ResolutionText(t).Err?
    ensures r.Err? ==> r.fault == IndexError
    ensures r.Ok? ==> r.value.Keys <= {"screen_ppi", "screen_res"}
    ensures r.Ok? ==>
              var text := ResolutionText(t).value;
              && ("screen_ppi" in r.value <==> PixelDensity(text).Some?)
              && ("screen_ppi" in r.value ==> r.value["screen_ppi"] == Str(PixelDensity(text).value))
              && ("screen_res" in r.value <==> ScreenPixels(text).Some?)
              && ("screen_res" in r.value ==>
                    var px := ScreenPixels(text).value;
                    r.value["screen_res"] == Str(px.width + "x" + px.height))
  {
    match ResolutionText(t)
    case Err(fault) => Err(fault)
    case Ok(text) =>
      var ppi: Partial := if PixelDensity(text).Some? then map["screen_ppi" := Str(PixelDensity(text).value)] else map[];
      var px := ScreenPixels(text);
      Ok(if px.Some? then ppi["screen_res" := Str(px.value.width + "x" + px.value.height)] else ppi)
  }

  /** `parse_screen_res`: fills `out` one key at a time. */
  method ParseScreenRes(t: TextTable) returns (r: Result<Partial>)
    ensures r == ScreenResolution(t)
  {
    var out: Partial := map[];
    var text := if "displayresolution" in t then t["displayresolution"] else [""];
    if text == [] {
      return Err(IndexError);
    }
    var ppi := PixelDensity(text[0]);
    if ppi.Some? {
      out := out["screen_ppi" := Str(ppi.value)];
    }
    var resolution := ScreenPixels(text[0]);
    if resolution.Some? {
      out := out["screen_res" := Str(resolution.value.width + "x" + resolution.value.height)];
    }
    return Ok(out);
  }

  /** The reported resolution is two runs of digits around an 'x'. */
  lemma ResolutionShape(t: TextTable)
    requires ScreenResolution(t).Ok? && "screen_res" in ScreenResolution(t).value
    ensures var v := ScreenResolution(t).value["screen_res"];
            v.Str? && exists w: nat :: 0 < w < |v.s| - 1 && v.s[w] == 'x' && AllDigits(v.s[..w]) && AllDigits(v.s[w + 1..])
  {
    var px := ScreenPixels(ResolutionText(t).value).value;
    var s := px.width + "x" + px.height;
    assert s[..|px.width|] == px.width && s[|px.width| + 1..] == px.height;
    assert s[|px.width|] == 'x';
  }

  /** Without the field there is nothing to report, and nothing fails. */
  lemma MissingField(t: TextTable)
    requires "displayresolution" !in t
    ensures ScreenResolution(t) == Ok(map[])
  {
    assert PixelDensity("").None? by {
      PixelDensityLeftmost("");
      assert DensityAt("", 0).None?;
    }
  }
}
