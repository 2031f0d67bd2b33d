/** `parse_camera`: one camera per module fragment that states a resolution
    in megapixels. The camera fields are the only ones whose fragments may be
    markup nodes; a node is read through its first child. */
module CameraExtraction {
  import opened Base
  import opened Strings
  import opened Table
  import opened Patterns
  import opened Scan

  /** The fragment separating two modules. */
  const LineBreak: Fragment := Text("\n")

  /** `spec_tags.get(code, [])` */
  function FieldOrEmpty(raw: RawTable, code: string): (r: seq<Fragment>)
    ensures code in raw ==> r == raw[code]
    ensures code !in raw ==> r == []
  {
    if code in raw then raw[code] else []
  }

  /** The main camera modules followed by the selfie camera modules. */
  function CameraFragments(raw: RawTable): (r: seq<Fragment>)
    ensures |r| == |FieldOrEmpty(raw, "cam1modules")| + |FieldOrEmpty(raw, "cam2modules")|
  {
    FieldOrEmpty(raw, "cam1modules") + FieldOrEmpty(raw, "cam2modules")
  }

  /** The text a fragment is searched in: a node's first child, which has to
      be text for the search to accept it. */
  function ModuleText(f: Fragment): (r: Result<string>)
    ensures f.Text? ==> r == Ok(f.text)
    ensures f.Node? && f.contents == [] ==> r == Err(IndexError)
    ensures f.Node? && f.contents != [] ==> (r.Ok? <==> f.contents[0].Text?)
    ensures r.Err? && f.Node? && f.contents != [] ==> r == Err(TypeError)
  {
    match f
    case Text(text) => Ok(text)
    case Node(contents) =>
      if contents == [] then Err(IndexError)
      else match contents[0]
        case Text(text) => Ok(text)
        case Node(_) => Err(TypeError)
  }

  /** A reported camera: no flash text, and a resolution ending in " MP". */
  predicate Reported(cam: Camera)
  {
    cam.flash == "" && |cam.info| >= 4 && cam.info[|cam.info| - 3..] == " MP"
  }

  /** The camera one module fragment describes, if any. */
  function CameraOf(f: Fragment): (r: Result<Option<Camera>>)
    ensures f == LineBreak ==> r == Ok(None)
    ensures f != LineBreak ==> (r.Err? <==> ModuleText(f).Err?)
    ensures r.Err? ==> r.fault == ModuleText(f).fault
    ensures r.Ok? && r.value.Some? ==>
              && f != LineBreak && ModuleText(f).Ok?
              && r.value.value.flash == ""
              && Megapixels(ModuleText(f).value) == Some(r.value.value.info)
              && Reported(r.value.value)
    ensures f != LineBreak && ModuleText(f).Ok? && Megapixels(ModuleText(f).value).Some? ==> r.Ok? && r.value.Some?
  {
    if f == LineBreak then Ok(None)
    else match ModuleText(f)
      case Err(fault) => Err(fault)
      case Ok(text) =>
        match Megapixels(text)
        case None => Ok(None)
        case Some(resolution) => Ok(Some(Camera("", resolution)))
  }

  /** The cameras of a sequence of module fragments, or the first failure. */
  function Cameras(fs: seq<Fragment>): (r: Result<seq<Camera>>)
    ensures r.Ok? ==> |r.value| <= |fs|
    decreases |fs|
  {
    if fs == [] then Ok([])
    else
      var n := |fs| - 1;
      match Cameras(fs[..n])
      case Err(fault) => Err(fault)
      case Ok(cams) =>
        match CameraOf(fs[n])
        case Err(fault) => Err(fault)
        case Ok(None) => Ok(cams)
        case Ok(Some(cam)) => Ok(cams + [cam])
  }

  /** A line break, then the module `"50 MP, f/1.8"`: one camera, with
      the resolution `"50 MP"` and no flash text. */
  lemma CameraExample()
    ensures Cameras([Text("\n"), Text("50 MP, f/1.8")]) == Ok([Camera("", "50 MP")])
  {
    var s := "50 MP, f/1.8";
    var fs := [Text("\n"), Text(s)];
    assert DigitEnd(s, 2) == 2;
    assert DigitEnd(s, 0) == 2;
    assert OccursAt(s, " MP", 2) by { assert s[2..5] == " MP"; }
    assert MegapixelAt(s, 0) == Some(Found("50 MP", 5)) by { assert s[0..5] == "50 MP"; }
    assert Megapixels(s) == Some("50 MP");
    assert CameraOf(Text(s)) == Ok(Some(Camera("", "50 MP")));
    assert fs[..1] == [LineBreak] && fs[..1][..0] == [];
    assert Cameras(fs[..1]) == Ok([]);
    assert fs[1] == Text(s) && |fs| - 1 == 1;
    assert Cameras(fs) == Ok([] + [Camera("", "50 MP")]);
    assert [] + [Camera("", "50 MP")] == [Camera("", "50 MP")];
    assert fs == [Text("\n"), Text("50 MP, f/1.8")];
  }

  /** The extraction fails exactly when some module fragment does. */
  lemma {:induction false} CamerasFail(fs: seq<Fragment>)
    ensures Cameras(fs).Ok? <==> forall k :: 0 <= k < |fs| ==> CameraOf(fs[k]).Ok?
    decreases |fs|
  {
    if fs != [] {
      var n := |fs| - 1;
      CamerasFail(fs[..n]);
      assert Cameras(fs).Ok? <==> Cameras(fs[..n]).Ok? && CameraOf(fs[n]).Ok?;
      if Cameras(fs).Ok? {
        forall k | 0 <= k < |fs| ensures CameraOf(fs[k]).Ok? {
          if k < n {
            assert fs[k] == fs[..n][k];
          }
        }
      } else if CameraOf(fs[n]).Ok? {
        var k :| 0 <= k < n && CameraOf(fs[..n][k]).Err?;
        assert fs[..n][k] == fs[k];
      }
    }
  }

  /** Every camera reported has no flash text and a resolution in megapixels. */
  lemma {:induction false} CamerasReported(fs: seq<Fragment>)
    ensures Cameras(fs).Ok? ==> forall k :: 0 <= k < |Cameras(fs).value| ==> Reported(Cameras(fs).value[k])
    decreases |fs|
  {
    if fs != [] {
      var n := |fs| - 1;
      CamerasReported(fs[..n]);
      if Cameras(fs[..n]).Ok? && CameraOf(fs[n]).Ok? && CameraOf(fs[n]).value.Some? {
        var cams, cam := Cameras(fs[..n]).value, CameraOf(fs[n]).value.value;
        assert Cameras(fs).value == cams + [cam];
        forall k | 0 <= k < |cams| + 1 ensures Reported((cams + [cam])[k]) {
          if k < |cams| {
            assert (cams + [cam])[k] == cams[k];
          }
        }
      }
    }
  }

  /** One more module fragment: its camera is appended, or its failure reported. */
  lemma CamerasStep(fs: seq<Fragment>, i: nat, cams: seq<Camera>)
    requires i < |fs| && Cameras(fs[..i]) == Ok(cams)
    ensures CameraOf(fs[i]).Err? ==> Cameras(fs[..i + 1]) == Err(CameraOf(fs[i]).fault)
    ensures CameraOf(fs[i]) == Ok(None) ==> Cameras(fs[..i + 1]) == Ok(cams)
    ensures CameraOf(fs[i]).Ok? && CameraOf(fs[i]).value.Some? ==>
              Cameras(fs[..i + 1]) == Ok(cams + [CameraOf(fs[i]).value.value])
  {
    assert fs[..i + 1][..i] == fs[..i];
    assert fs[..i + 1][i] == fs[i];
  }

  /** Once a prefix of the modules fails, the whole sequence fails the same way. */
  lemma {:induction false} FailureSticks(fs: seq<Fragment>, i: nat)
    requires i <= |fs| && Cameras(fs[..i]).Err?
    ensures Cameras(fs) == Cameras(fs[..i])
    decreases |fs| - i
  {
    if i < |fs| {
      assert fs[..i + 1][..i] == fs[..i];
      FailureSticks(fs, i + 1);
    } else {
      assert fs[..i] == fs;
    }
  }

  /** What `parse_camera` reports. */
  function CameraPart(raw: RawTable): (r: Result<Partial>)
    ensures r.Ok? ==> r.value.Keys == {"cameras"}
    ensures r.Err? <==> Cameras(CameraFragments(raw)).Err?
    ensures r.Ok? ==> r.value == map["cameras" := CameraList(Cameras(CameraFragments(raw)).value)]
  {
    match Cameras(CameraFragments(raw))
    case Err(fault) => Err(fault)
    case Ok(cams) => Ok(map["cameras" := CameraList(cams)])
  }

  /** `parse_camera`: appends a camera per matching module. */
  method ParseCamera(raw: RawTable) returns (r: Result<Partial>)
    ensures r == CameraPart(raw)
  {
    var modules := CameraFragments(raw);
    var cameras := CollectCameras(modules);
    match cameras {
      case Err(fault) => return Err(fault);
      case Ok(cams) => return Ok(map["cameras" := CameraList(cams)]);
    }
  }

  /** The loop of `parse_camera`: line breaks are skipped, a node is read
      through its first child, and a camera is appended for each module
      stating a resolution. */
  method CollectCameras(modules: seq<Fragment>) returns (r: Result<seq<Camera>>)
    ensures r == Cameras(modules)
  {
    var cameras: seq<Camera> := [];
    var i := 0;
    while i < |modules|
      invariant 0 <= i <= |modules|
      invariant Cameras(modules[..i]) == Ok(cameras)
    {
      CamerasStep(modules, i, cameras);
      var cam := modules[i];
      if cam == LineBreak {
        i := i + 1;
        continue;
      }
      var text := ModuleText(cam);
      if text.Err? {
        FailureSticks(modules, i + 1);
        return Err(text.fault);
      }
      var resolution := Megapixels(text.value);
      if resolution.Some? {
        cameras := cameras + [Camera("", resolution.value)];
      }
      i := i + 1;
    }
    assert modules[..i] == modules;
    return Ok(cameras);
  }

  /** Plain text module fragments never make the extraction fail. */
  lemma {:induction false} TextNeverFails(fs: seq<Fragment>)
    requires forall k :: 0 <= k < |fs| ==> fs[k].Text?
    ensures Cameras(fs).Ok?
  {
    if fs != [] {
      assert CameraOf(fs[|fs| - 1]).Ok?;
      TextNeverFails(fs[..|fs| - 1]);
    }
  }

  /** Without camera fields there are no cameras, and no failure. */
  lemma NoCameraFields(raw: RawTable)
    requires "cam1modules" !in raw && "cam2modules" !in raw
    ensures CameraPart(raw) == Ok(map["cameras" := CameraList([])])
  {
  }
}
