/** The raw field table scraped from a device page and the values of the
    document the extractors build. */
module Table {
  import opened Base

  /** A piece of a field's content: plain text, or a markup node whose
      children are fragments again. */
  datatype Fragment = Text(text: string) | Node(contents: seq<Fragment>)

  /** Field code to the fragments found under it, as the scraper collects them. */
  type RawTable = map<string, seq<Fragment>>

  /** The fields every extractor but the camera one reads hold plain text. */
  type TextTable = map<string, seq<string>>

  /** The camera fields: the only ones whose fragments may be markup nodes. */
  const CameraFields: set<string> := {"cam1modules", "cam2modules"}

  /** Every fragment outside the camera fields is plain text. */
  predicate PlainOutsideCameras(raw: RawTable)
  {
    forall code, i :: code in raw && code !in CameraFields && 0 <= i < |raw[code]| ==> raw[code][i].Text?
  }

  /** The text-only view of the raw table that the text extractors read. */
  function TextView(raw: RawTable): (t: TextTable)
    requires PlainOutsideCameras(raw)
    ensures t.Keys == raw.Keys - CameraFields
    ensures forall code :: code in t ==> |t[code]| == |raw[code]|
    ensures forall code, i :: code in t && 0 <= i < |t[code]| ==> raw[code][i] == Text(t[code][i])
  {
    map code | code in raw && code !in CameraFields ::
      seq(|raw[code]|, i requires 0 <= i < |raw[code]| => raw[code][i].text)
  }

  datatype Camera = Camera(flash: string, info: string)

  /** A value of the output document. */
  datatype Value =
    | Str(s: string)
    | Bool(b: bool)
    | StrList(items: seq<string>)
    | CameraList(cams: seq<Camera>)
    | Nested(fields: map<string, Value>)

  /** What one extractor contributes, and the document itself. */
  type Partial = map<string, Value>

  /** The sentinel of a required key nothing has filled in. */
  const UNKNOWN: string := "REQUIRED, BUT UNKNOWN"

  /** `table[code][0]`: a `KeyError` when the code is absent, an
      `IndexError` when its fragment list is empty. */
  function FirstOf(t: TextTable, code: string): (r: Result<string>)
    ensures r == Err(KeyError) <==> code !in t
    ensures r == Err(IndexError) <==> code in t && t[code] == []
    ensures r.Ok? <==> code in t && t[code] != []
    ensures r.Ok? ==> r.value == t[code][0]
  {
    if code !in t then Err(KeyError)
    else if t[code] == [] then Err(IndexError)
    else Ok(t[code][0])
  }
}
