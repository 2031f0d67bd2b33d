/** `main()`: the document starts from the schema's required keys, all
    marked unknown, with sentinel sub-maps for `battery` and `bluetooth`;
    the extractors' partial outputs are then folded into it in a fixed
    order. Most outputs replace top-level keys; the Bluetooth ones update the
    `bluetooth` sub-map key by key. */
module Assembly {
  import opened Base
  import opened Table
  import opened PeripheralExtraction
  import opened Peripherals
  import opened BatteryExtraction
  import opened BluetoothExtraction
  import opened ProcessorExtraction
  import opened IdentityExtraction
  import opened MemoryExtraction
  import opened CameraExtraction
  import opened DisplayExtraction
  import opened NetworkExtraction

  /** What the schema supplies: the required keys, the vendor names, and the
      extra Bluetooth tokens (in some order; the source draws them from a set). */
  datatype Schema = Schema(required: seq<string>, vendors: seq<string>, extras: seq<string>)

  /** The outcomes of the extractors whose input this model does not read
      itself, each the partial document or the exception that escapes it.
      The release date raises `TypeError` when no date is found in the text.
      The screen size raises `ValueError` when the first number it finds is a
      bare point. The walk of the network table raises `AttributeError` when
      its field sits outside a table and `StopIteration` when an optional row
      comes before any named row. A walk that stops at a caught `KeyError` or
      `IndexError` is `Ok(None)`. */
  datatype Externals = Externals(release: Result<Partial>, screenSize: Result<Partial>, bands: Result<Option<BandTable>>)

  /** Vendors are non-empty, and the external extractors produce their own key only. */
  predicate WellFormed(schema: Schema, ext: Externals)
  {
    && (forall v :: v in schema.vendors ==> v != [])
    && (ext.release.Ok? ==> ext.release.value.Keys <= {"release"})
    && (ext.screenSize.Ok? ==> ext.screenSize.value.Keys <= {"screen"})
  }

  /** The sentinel sub-maps. */
  const BATTERY_SENTINEL: Value := Nested(map["removable" := Str(UNKNOWN), "capacity" := Str(UNKNOWN)])
  const BLUETOOTH_SENTINEL: Value := Nested(map["spec" := Str(UNKNOWN)])

  /** The starting document. */
  function Initial(required: seq<string>): (d: Partial)
    ensures d.Keys == (set k | k in required) + {"battery", "bluetooth"}
    ensures forall k :: k in required && k != "battery" && k != "bluetooth" ==> d[k] == Str(UNKNOWN)
    ensures d["battery"] == BATTERY_SENTINEL && d["bluetooth"] == BLUETOOTH_SENTINEL
  {
    (map k | k in required :: Str(UNKNOWN))["battery" := BATTERY_SENTINEL]["bluetooth" := BLUETOOTH_SENTINEL]
  }

  /** The document holds a `bluetooth` sub-map to update. */
  predicate HasBluetooth(d: Partial)
  {
    "bluetooth" in d && d["bluetooth"].Nested?
  }

  /** `specs['bluetooth'].update(part)` */
  function MergeBluetooth(d: Partial, part: Partial): (r: Partial)
    requires HasBluetooth(d)
    ensures HasBluetooth(r) && r.Keys == d.Keys
    ensures r["bluetooth"].fields == d["bluetooth"].fields + part
    ensures forall k :: k in d && k != "bluetooth" ==> r[k] == d[k]
  {
    d["bluetooth" := Nested(d["bluetooth"].fields + part)]
  }

  /** The top-level keys the updates can set, by stretch of `main()`: up
      to the battery, from the Bluetooth profile to the model numbers, and
      from the screen size to the model name. */
  const HEAD_KEYS: set<string> := {"release", "peripherals", "battery"}
  const MIDDLE_KEYS: set<string> := {"cpu_cores", "cpu_freq", "cpu", "gpu", "height", "width", "depth", "models"}
  const TAIL_KEYS: set<string> :=
    {"screen", "network", "cameras", "screen_ppi", "screen_res", "name", "vendor", "vendor_short", "tree", "kernel"}
  const EXTRACTED_KEYS: set<string> := HEAD_KEYS + MIDDLE_KEYS + TAIL_KEYS

  function PeripheralsPart(t: TextTable): (r: Partial)
    ensures r.Keys == {"peripherals"} && r["peripherals"] == StrList(PeripheralNames(t, PERIPHERALS))
  {
    map["peripherals" := StrList(PeripheralNames(t, PERIPHERALS))]
  }

  /** `parse_mobile_networks` once its table walk has returned: the
      classified list, or nothing when the walk stopped early. */
  function NetworkPart(bands: Option<BandTable>): (r: Partial)
    ensures r.Keys <= {"network"}
    ensures bands.None? ==> r == map[]
    ensures bands.Some? ==> r.Keys == {"network"} && r["network"] == StrList(Networks(bands.value))
  {
    match bands
    case None => map[]
    case Some(b) => map["network" := StrList(Networks(b))]
  }

  /** No update sets `bluetooth`, and only the first stretch sets `battery`. */
  lemma StretchKeys()
    ensures "bluetooth" !in HEAD_KEYS && "bluetooth" !in MIDDLE_KEYS && "bluetooth" !in TAIL_KEYS
    ensures "battery" !in MIDDLE_KEYS && "battery" !in TAIL_KEYS
  {
  }

  /** The parts of the first stretch stay within its keys. */
  lemma HeadPartKeys(t: TextTable)
    ensures PeripheralsPart(t).Keys <= HEAD_KEYS && BatteryInfo(t).Keys <= HEAD_KEYS
  {
  }

  /** The parts of the second stretch stay within its keys. */
  lemma MiddlePartKeys(t: TextTable)
    ensures ParseCpuCores(t).Keys <= MIDDLE_KEYS && ParseCpuFreqs(t).Keys <= MIDDLE_KEYS
    ensures ParseGpu(t).Keys <= MIDDLE_KEYS && ParseDimensions(t).Keys <= MIDDLE_KEYS
    ensures ParseModelNumbers(t).Keys <= MIDDLE_KEYS
  {
  }

  lemma CpuPartKeys(t: TextTable)
    ensures ParseCpuModel(t).Ok? ==> ParseCpuModel(t).value.Keys <= MIDDLE_KEYS
  {
  }

  /** The parts of the third stretch stay within its keys. */
  lemma TailPartKeys(raw: RawTable, t: TextTable, bands: Option<BandTable>)
    ensures NetworkPart(bands).Keys <= TAIL_KEYS
    ensures CameraPart(raw).Ok? ==> CameraPart(raw).value.Keys <= TAIL_KEYS
    ensures ScreenResolution(t).Ok? ==> ScreenResolution(t).value.Keys <= TAIL_KEYS
  {
  }

  lemma NamePartKeys(t: TextTable, vendors: seq<string>)
    requires forall v :: v in vendors ==> v != []
    ensures ModelName(t, vendors).Keys <= TAIL_KEYS
  {
  }

  /** `r` is `d` with at most the keys `keys` added or replaced. */
  predicate Extends(d: Partial, r: Partial, keys: set<string>)
  {
    && d.Keys <= r.Keys <= d.Keys + keys
    && forall k :: k in d && k !in keys ==> r[k] == d[k]
  }

  /** One more update whose part stays within `keys`. */
  lemma UpdateWithin(d: Partial, r: Partial, part: Partial, keys: set<string>)
    requires Extends(d, r, keys) && part.Keys <= keys
    ensures Extends(d, r + part, keys)
  {
  }

  /** The first stretch's updates on their parts alone: the release date
      is set when given, the peripherals and the battery are set, and only
      the stretch's keys change. */
  lemma HeadUpdates(d: Partial, release: Partial, peripherals: Partial, battery: Partial)
    requires release.Keys <= {"release"} && peripherals.Keys == {"peripherals"} && battery.Keys == {"battery"}
    ensures var r := d + release + peripherals + battery + battery;
            && d.Keys <= r.Keys <= d.Keys + HEAD_KEYS
            && (forall k :: k in d && k !in HEAD_KEYS ==> r[k] == d[k])
            && ("release" in release ==> "release" in r && r["release"] == release["release"])
            && ("release" !in release && "release" in d ==> r["release"] == d["release"])
            && r["peripherals"] == peripherals["peripherals"] && r["battery"] == battery["battery"]
  {
  }

  /** The updates of `main()` from the release date to the second battery
      update. */
  function FoldHead(d: Partial, t: TextTable, release: Partial): (r: Partial)
    requires HasBluetooth(d) && release.Keys <= {"release"}
    ensures HasBluetooth(r) && d.Keys <= r.Keys <= d.Keys + HEAD_KEYS
    ensures forall k :: k in d && k !in HEAD_KEYS ==> r[k] == d[k]
    ensures "release" in release ==> "release" in r && r["release"] == release["release"]
    ensures "release" !in release && "release" in d ==> r["release"] == d["release"]
    ensures "peripherals" in r && r["peripherals"] == PeripheralsPart(t)["peripherals"]
    ensures "battery" in r && r["battery"] == BatteryInfo(t)["battery"]
  {
    StretchKeys();
    var peripherals := PeripheralsPart(t);
    var battery := BatteryInfo(t);
    HeadUpdates(d, release, peripherals, battery);
    d + release + peripherals + battery + battery
  }

  /** From the Bluetooth profile to the model numbers. */
  function FoldMiddle(d: Partial, t: TextTable, profile: Partial, cpu: Partial): (r: Partial)
    requires HasBluetooth(d) && cpu.Keys <= MIDDLE_KEYS
    ensures HasBluetooth(r) && d.Keys <= r.Keys <= d.Keys + MIDDLE_KEYS
    ensures forall k :: k in d && k !in MIDDLE_KEYS && k != "bluetooth" ==> r[k] == d[k]
    ensures r["bluetooth"].fields == d["bluetooth"].fields + profile
  {
    MiddlePartKeys(t);
    StretchKeys();
    var m := MergeBluetooth(d, profile);
    var r1 := m + ParseCpuCores(t);
    assert Extends(m, r1, MIDDLE_KEYS);
    var r2 := r1 + ParseCpuFreqs(t);
    UpdateWithin(m, r1, ParseCpuFreqs(t), MIDDLE_KEYS);
    var r3 := r2 + cpu;
    UpdateWithin(m, r2, cpu, MIDDLE_KEYS);
    var r4 := r3 + ParseGpu(t);
    UpdateWithin(m, r3, ParseGpu(t), MIDDLE_KEYS);
    var r5 := r4 + ParseDimensions(t);
    UpdateWithin(m, r4, ParseDimensions(t), MIDDLE_KEYS);
    UpdateWithin(m, r5, ParseModelNumbers(t), MIDDLE_KEYS);
    r5 + ParseModelNumbers(t)
  }

  /** From the screen size to the model name. */
  function FoldTail(d: Partial, t: TextTable, screenSize: Partial, bands: Option<BandTable>,
                    cameras: Partial, screen: Partial, vendors: seq<string>): (r: Partial)
    requires HasBluetooth(d) && screenSize.Keys <= {"screen"}
    requires cameras.Keys <= TAIL_KEYS && screen.Keys <= TAIL_KEYS
    requires forall v :: v in vendors ==> v != []
    ensures HasBluetooth(r) && d.Keys <= r.Keys <= d.Keys + TAIL_KEYS
    ensures forall k :: k in d && k !in TAIL_KEYS ==> r[k] == d[k]
  {
    TailPartKeys(map[], t, bands);
    NamePartKeys(t, vendors);
    StretchKeys();
    var r1 := d + screenSize;
    assert Extends(d, r1, TAIL_KEYS);
    var r2 := r1 + NetworkPart(bands);
    UpdateWithin(d, r1, NetworkPart(bands), TAIL_KEYS);
    var r3 := r2 + cameras;
    UpdateWithin(d, r2, cameras, TAIL_KEYS);
    var r4 := r3 + screen;
    UpdateWithin(d, r3, screen, TAIL_KEYS);
    UpdateWithin(d, r4, ModelName(t, vendors), TAIL_KEYS);
    r4 + ModelName(t, vendors)
  }

  /** An update with an empty part changes nothing. */
  lemma NothingToUpdate(d: Partial, part: Partial)
    requires part == map[]
    ensures d + part == d
  {
  }

  /** The exception an outcome carries, if any. */
  function FaultOf<T>(r: Result<T>): Option<Fault>
  {
    if r.Ok? then None else Some(r.fault)
  }

  /** The exception that ends a run of calls whose outcomes are `fs`, in
      call order. */
  function FirstFault(fs: seq<Option<Fault>>): Option<Fault>
  {
    if fs == [] then None
    else if fs[0].Some? then fs[0]
    else FirstFault(fs[1..])
  }

  /** The exception that ends the run is the first one raised: no call
      raises exactly when none is reported, and a reported one comes from a
      call before which none raised. */
  lemma {:induction false} FirstFaultIsFirst(fs: seq<Option<Fault>>)
    ensures FirstFault(fs).None? <==> forall i :: 0 <= i < |fs| ==> fs[i].None?
    ensures FirstFault(fs).Some? ==>
              exists i :: 0 <= i < |fs| && fs[i] == FirstFault(fs) && forall j :: 0 <= j < i ==> fs[j].None?
  {
    if fs != [] && fs[0].None? {
      var rest := fs[1..];
      FirstFaultIsFirst(rest);
      assert forall i :: 1 <= i < |fs| ==> fs[i] == rest[i - 1];
      if FirstFault(rest).Some? {
        var i :| 0 <= i < |rest| && rest[i] == FirstFault(rest) && forall j :: 0 <= j < i ==> rest[j].None?;
        assert fs[i + 1] == FirstFault(fs);
        assert forall j :: 0 <= j < i + 1 ==> fs[j].None? by {
          forall j | 0 <= j < i + 1 ensures fs[j].None? {
            if j > 0 { assert fs[j] == rest[j - 1]; }
          }
        }
      }
    }
  }

  /** Two calls in turn: the first one's exception, else the second's. */
  lemma FirstOfTwo(a: Option<Fault>, b: Option<Fault>)
    ensures FirstFault([a, b]) == if a.Some? then a else b
  {
    assert [a, b][1..] == [b];
    assert [b][1..] == [];
    assert FirstFault([b]) == b by {
      if b.None? {
        assert FirstFault([b]) == FirstFault([]);
      }
    }
  }

  /** Four calls in turn: the exception of the first one that raises. */
  lemma FirstOfFour(a: Option<Fault>, b: Option<Fault>, c: Option<Fault>, d: Option<Fault>)
    ensures FirstFault([a, b, c, d]) == if a.Some? then a else if b.Some? then b else if c.Some? then c else d
  {
    assert [a, b, c, d][1..] == [b, c, d];
    assert [b, c, d][1..] == [c, d];
    FirstOfTwo(c, d);
  }

  /** The calls that can raise are run in turn: the first exception among
      `a + b` is the first one in `a` or, when `a` raises none, the first
      one in `b`. */
  lemma {:induction false} FirstFaultAppend(a: seq<Option<Fault>>, b: seq<Option<Fault>>)
    ensures FirstFault(a + b) == if FirstFault(a).Some? then FirstFault(a) else FirstFault(b)
  {
    if a != [] {
      assert (a + b)[0] == a[0];
      if a[0].None? {
        assert (a + b)[1..] == a[1..] + b;
        FirstFaultAppend(a[1..], b);
      }
    } else {
      assert a + b == b;
    }
  }

  /** The outcomes that can end the first stretch: the release date. */
  function HeadFaults(ext: Externals): seq<Option<Fault>>
  {
    [FaultOf(ext.release)]
  }

  /** The outcomes that can end the second stretch: the Bluetooth profile
      and the CPU model. */
  function MiddleFaults(t: TextTable): seq<Option<Fault>>
  {
    [FaultOf(BluetoothProfile(t)), FaultOf(ParseCpuModel(t))]
  }

  /** The outcomes that can end the third stretch: the screen size, the
      network table walk, the cameras and the screen resolution. */
  function TailFaults(raw: RawTable, t: TextTable, ext: Externals): seq<Option<Fault>>
  {
    [FaultOf(ext.screenSize), FaultOf(ext.bands), FaultOf(CameraPart(raw)), FaultOf(ScreenResolution(t))]
  }

  /** Every outcome that can end `main()`, in the order of the calls. */
  function Faults(raw: RawTable, ext: Externals): seq<Option<Fault>>
    requires PlainOutsideCameras(raw)
  {
    var t := TextView(raw);
    HeadFaults(ext) + MiddleFaults(t) + TailFaults(raw, t, ext)
  }

  /** None of the seven extractors that can raise does so on this page. */
  predicate Completes(raw: RawTable, ext: Externals)
    requires PlainOutsideCameras(raw)
  {
    var t := TextView(raw);
    && ext.release.Ok? && BluetoothProfile(t).Ok? && ParseCpuModel(t).Ok?
    && ext.screenSize.Ok? && ext.bands.Ok? && CameraPart(raw).Ok? && ScreenResolution(t).Ok?
  }

  /** Seven calls raise nothing exactly when none of them raises. */
  lemma NoneOfSeven(a: Option<Fault>, b: Option<Fault>, c: Option<Fault>, d: Option<Fault>,
                    e: Option<Fault>, f: Option<Fault>, g: Option<Fault>)
    ensures FirstFault([a, b, c, d, e, f, g]).None? <==>
              a.None? && b.None? && c.None? && d.None? && e.None? && f.None? && g.None?
  {
    var fs := [a, b, c, d, e, f, g];
    FirstFaultIsFirst(fs);
    if FirstFault(fs).None? {
      assert fs[0].None? && fs[1].None? && fs[2].None? && fs[3].None?;
      assert fs[4].None? && fs[5].None? && fs[6].None?;
    }
  }

  /** A run completes exactly when no call in it raises. */
  lemma CompletesWithoutFault(raw: RawTable, ext: Externals)
    requires PlainOutsideCameras(raw)
    ensures Completes(raw, ext) <==> FirstFault(Faults(raw, ext)).None?
  {
    var t := TextView(raw);
    var a, b, c := FaultOf(ext.release), FaultOf(BluetoothProfile(t)), FaultOf(ParseCpuModel(t));
    var d, e := FaultOf(ext.screenSize), FaultOf(ext.bands);
    var f, g := FaultOf(CameraPart(raw)), FaultOf(ScreenResolution(t));
    assert Faults(raw, ext) == [a, b, c, d, e, f, g];
    NoneOfSeven(a, b, c, d, e, f, g);
  }

  /** The whole pipeline: the finished document, or the first exception
      that escapes an extractor, in the order `main()` calls them. */
  function Assembled(raw: RawTable, schema: Schema, ext: Externals): (r: Result<Partial>)
    requires PlainOutsideCameras(raw) && WellFormed(schema, ext)
    ensures r.Err? <==> !Completes(raw, ext)
    ensures ext.release.Err? ==> r == Err(ext.release.fault)
    ensures r.Ok? ==> HasBluetooth(r.value)
  {
    var t := TextView(raw);
    CompletesWithoutFault(raw, ext);
    assert Faults(raw, ext)[0] == FaultOf(ext.release);
    match FirstFault(Faults(raw, ext))
    case Some(fault) => Err(fault)
    case None =>
      CpuPartKeys(t);
      TailPartKeys(raw, t, ext.bands.value);
      Ok(Document(t, schema, ext, BluetoothProfile(t).value, ParseCpuModel(t).value,
                  CameraPart(raw).value, ScreenResolution(t).value))
  }

  /** The document once no extractor has failed: the initial one passed
      through the three stretches and the final Bluetooth update. */
  function Document(t: TextTable, schema: Schema, ext: Externals,
                    profile: Partial, cpu: Partial, cameras: Partial, screen: Partial): (d: Partial)
    requires cpu.Keys <= MIDDLE_KEYS && cameras.Keys <= TAIL_KEYS && screen.Keys <= TAIL_KEYS
    requires WellFormed(schema, ext) && ext.release.Ok? && ext.screenSize.Ok? && ext.bands.Ok?
    ensures HasBluetooth(d)
  {
    var d := FoldHead(Initial(schema.required), t, ext.release.value);
    var d := FoldMiddle(d, t, profile, cpu);
    var d := FoldTail(d, t, ext.screenSize.value, ext.bands.value, cameras, screen, schema.vendors);
    MergeBluetooth(d, BluetoothSpec(t, schema.extras))
  }

  /** A page whose table is empty makes `main()` fail: the release date
      catches its `KeyError` and contributes nothing, but the Bluetooth
      profile reads its field outside the `try`. */
  lemma EmptyPageFails(schema: Schema, ext: Externals)
    requires WellFormed(schema, ext) && ext.release == Ok(map[])
    ensures Assembled(map[], schema, ext) == Err(KeyError)
  {
    var t := TextView(map[]);
    assert "bluetooth" !in t;
    assert FirstOf(t, "bluetooth") == Err(KeyError);
    FirstFaultAppend(HeadFaults(ext), MiddleFaults(t));
    FirstFaultAppend(HeadFaults(ext) + MiddleFaults(t), TailFaults(map[], t, ext));
    assert FirstFault(HeadFaults(ext)) == None;
    assert FirstFault(MiddleFaults(t)) == Some(KeyError);
  }

  /** The finished document is the initial one passed through the three
      stretches and the final Bluetooth update. */
  lemma Stretches(raw: RawTable, schema: Schema, ext: Externals)
    returns (t: TextTable, profile: Partial, cpu: Partial, cameras: Partial, screen: Partial)
    requires PlainOutsideCameras(raw) && WellFormed(schema, ext) && Completes(raw, ext)
    ensures t == TextView(raw)
    ensures profile == BluetoothProfile(t).value && cpu == ParseCpuModel(t).value
    ensures cpu.Keys <= MIDDLE_KEYS && cameras.Keys <= TAIL_KEYS && screen.Keys <= TAIL_KEYS
    ensures cameras == CameraPart(raw).value && screen == ScreenResolution(t).value
    ensures Assembled(raw, schema, ext).value == Document(t, schema, ext, profile, cpu, cameras, screen)
  {
    t := TextView(raw);
    CpuPartKeys(t);
    TailPartKeys(raw, t, ext.bands.value);
    CompletesWithoutFault(raw, ext);
    profile := BluetoothProfile(t).value;
    cpu := ParseCpuModel(t).value;
    cameras := CameraPart(raw).value;
    screen := ScreenResolution(t).value;
  }

  /** Every required key is in the document; one no extractor sets keeps
      its sentinel; no key outside the schema and the extractors' appears. */
  lemma RequiredKeys(raw: RawTable, schema: Schema, ext: Externals)
    requires PlainOutsideCameras(raw) && WellFormed(schema, ext) && Completes(raw, ext)
    ensures var doc := Assembled(raw, schema, ext).value;
            && (forall k :: k in schema.required ==> k in doc)
            && (forall k :: k in schema.required && k !in EXTRACTED_KEYS && k != "bluetooth" ==> doc[k] == Str(UNKNOWN))
            && doc.Keys <= (set k | k in schema.required) + {"battery", "bluetooth"} + EXTRACTED_KEYS
  {
    var t, profile, cpu, cameras, screen := Stretches(raw, schema, ext);
    var d0 := Initial(schema.required);
    var d1 := FoldHead(d0, t, ext.release.value);
    var d2 := FoldMiddle(d1, t, profile, cpu);
    var d3 := FoldTail(d2, t, ext.screenSize.value, ext.bands.value, cameras, screen, schema.vendors);
    var doc := MergeBluetooth(d3, BluetoothSpec(t, schema.extras));
    forall k | k in schema.required && k !in EXTRACTED_KEYS && k != "bluetooth"
      ensures doc[k] == Str(UNKNOWN)
    {
      assert k != "battery";
      assert d3[k] == d2[k] == d1[k] == d0[k];
    }
  }

  /** `battery` is replaced wholesale by the battery extractor's sub-map. */
  lemma BatteryReplaced(raw: RawTable, schema: Schema, ext: Externals)
    requires PlainOutsideCameras(raw) && WellFormed(schema, ext) && Completes(raw, ext)
    ensures var doc := Assembled(raw, schema, ext).value;
            "battery" in doc && doc["battery"] == BatteryInfo(TextView(raw))["battery"]
  {
    var t, profile, cpu, cameras, screen := Stretches(raw, schema, ext);
    StretchKeys();
    var d1 := FoldHead(Initial(schema.required), t, ext.release.value);
    var d2 := FoldMiddle(d1, t, profile, cpu);
    assert d2["battery"] == d1["battery"];
    var d3 := FoldTail(d2, t, ext.screenSize.value, ext.bands.value, cameras, screen, schema.vendors);
    assert d3["battery"] == d2["battery"];
  }

  /** Without a battery description the sentinels are lost: `battery`
      becomes an empty map. */
  lemma BatterySentinelsLost(raw: RawTable, schema: Schema, ext: Externals)
    requires PlainOutsideCameras(raw) && WellFormed(schema, ext) && Completes(raw, ext)
    requires "batdescription1" !in raw
    ensures Assembled(raw, schema, ext).value["battery"] == Nested(map[])
  {
    BatteryReplaced(raw, schema, ext);
    var fields := BatteryInfo(TextView(raw))["battery"].fields;
    assert FirstOf(TextView(raw), "batdescription1").Err?;
    assert "removable" !in fields && "capacity" !in fields && "tech" !in fields;
    assert fields == map[];
  }

  /** `bluetooth` is updated key by key: the sentinel `spec`, then the
      profile's keys, then the specification's. */
  lemma BluetoothSubMap(raw: RawTable, schema: Schema, ext: Externals)
    requires PlainOutsideCameras(raw) && WellFormed(schema, ext) && Completes(raw, ext)
    ensures var t := TextView(raw);
            Assembled(raw, schema, ext).value["bluetooth"] ==
              Nested(map["spec" := Str(UNKNOWN)] + BluetoothProfile(t).value + BluetoothSpec(t, schema.extras))
  {
    var t, profile, cpu, cameras, screen := Stretches(raw, schema, ext);
    StretchKeys();
    var d0 := Initial(schema.required);
    var d1 := FoldHead(d0, t, ext.release.value);
    assert d1["bluetooth"] == d0["bluetooth"];
    var d2 := FoldMiddle(d1, t, profile, cpu);
    var d3 := FoldTail(d2, t, ext.screenSize.value, ext.bands.value, cameras, screen, schema.vendors);
    assert d3["bluetooth"] == d2["bluetooth"];
  }

  /** The `spec` sub-key is always present; it keeps its sentinel exactly
      when no version token is found. */
  lemma BluetoothSpecSet(raw: RawTable, schema: Schema, ext: Externals)
    requires PlainOutsideCameras(raw) && WellFormed(schema, ext) && Completes(raw, ext)
    ensures var fields := Assembled(raw, schema, ext).value["bluetooth"].fields;
            var part := BluetoothSpec(TextView(raw), schema.extras);
            && "spec" in fields
            && (part == map[] ==> fields["spec"] == Str(UNKNOWN))
            && (part != map[] ==> fields["spec"] == part["spec"])
  {
    BluetoothSubMap(raw, schema, ext);
    var t := TextView(raw);
    SpecAfterProfile(BluetoothProfile(t).value, BluetoothSpec(t, schema.extras));
  }

  /** The sentinel `spec` survives a profile update and is replaced only by
      a non-empty specification update. */
  lemma SpecAfterProfile(profile: Partial, part: Partial)
    requires profile.Keys <= {"profiles"}
    requires part == map[] || (part.Keys == {"spec"})
    ensures var fields := map["spec" := Str(UNKNOWN)] + profile + part;
            && "spec" in fields
            && (part == map[] ==> fields["spec"] == Str(UNKNOWN))
            && (part != map[] ==> fields["spec"] == part["spec"])
  {
    assert "spec" !in profile;
  }

  /** Folding the battery part in twice is the same as once. */
  lemma BatteryTwiceIsOnce(d: Partial, t: TextTable)
    ensures d + BatteryInfo(t) + BatteryInfo(t) == d + BatteryInfo(t)
  {
  }

  /** The document being built, as `main()` keeps it in `specs`. */
  class SpecSheet {
    var entries: Partial

    predicate Valid()
      reads this
    {
      HasBluetooth(entries)
    }

    constructor (required: seq<string>)
      ensures Valid() && entries == Initial(required)
    {
      entries := Initial(required);
    }

    /** `specs.update(part)`: the part's keys are replaced, no other key changes. */
    method Update(part: Partial)
      requires Valid() && "bluetooth" !in part
      modifies this
      ensures Valid()
      ensures entries == old(entries) + part
    {
      entries := entries + part;
    }

    /** `specs['bluetooth'].update(part)` */
    method UpdateBluetooth(part: Partial)
      requires Valid()
      modifies this
      ensures Valid()
      ensures entries == MergeBluetooth(old(entries), part)
    {
      entries := entries["bluetooth" := Nested(entries["bluetooth"].fields + part)];
    }
  }

  /** The first stretch of updates in `main()`, which stops at once when
      the release date raises. */
  method UpdateHead(specs: SpecSheet, t: TextTable, ext: Externals) returns (failure: Option<Fault>)
    requires specs.Valid() && (ext.release.Ok? ==> ext.release.value.Keys <= {"release"})
    modifies specs
    ensures failure == FirstFault(HeadFaults(ext))
    ensures specs.Valid()
    ensures failure.None? ==> ext.release.Ok? && specs.entries == FoldHead(old(specs.entries), t, ext.release.value)
  {
    HeadPartKeys(t);
    StretchKeys();
    if ext.release.Err? {
      return Some(ext.release.fault);
    }
    specs.Update(ext.release.value);
    var part := ParsePeripherals(t);
    specs.Update(part);
    part := ParseBattery(t);
    specs.Update(part);
    part := ParseBattery(t);
    specs.Update(part);
    return None;
  }

  /** The second stretch, which stops at an exception from the Bluetooth
      profile or the CPU model. */
  method UpdateMiddle(specs: SpecSheet, t: TextTable) returns (failure: Option<Fault>)
    requires specs.Valid()
    modifies specs
    ensures failure == FirstFault(MiddleFaults(t))
    ensures specs.Valid()
    ensures failure.None? ==>
              BluetoothProfile(t).Ok? && ParseCpuModel(t).Ok? && ParseCpuModel(t).value.Keys <= MIDDLE_KEYS &&
              specs.entries == FoldMiddle(old(specs.entries), t, BluetoothProfile(t).value, ParseCpuModel(t).value)
  {
    MiddlePartKeys(t);
    CpuPartKeys(t);
    StretchKeys();
    ghost var a, b := FaultOf(BluetoothProfile(t)), FaultOf(ParseCpuModel(t));
    assert MiddleFaults(t) == [a, b];
    FirstOfTwo(a, b);
    var profile := BluetoothProfile(t);
    if profile.Err? {
      return Some(profile.fault);
    }
    specs.UpdateBluetooth(profile.value);
    specs.Update(ParseCpuCores(t));
    specs.Update(ParseCpuFreqs(t));
    var cpu := ParseCpuModel(t);
    if cpu.Err? {
      return Some(cpu.fault);
    }
    specs.Update(cpu.value);
    specs.Update(ParseGpu(t));
    specs.Update(ParseDimensions(t));
    specs.Update(ParseModelNumbers(t));
    return None;
  }

  /** `specs.update(parse_mobile_networks(...))` once the table walk has
      returned: the classified list is set, or nothing changes. */
  method UpdateNetwork(specs: SpecSheet, bands: Option<BandTable>)
    requires specs.Valid()
    modifies specs
    ensures specs.Valid() && specs.entries == old(specs.entries) + NetworkPart(bands)
  {
    if bands.Some? {
      var networks := ClassifyNetworks(bands.value);
      specs.Update(map["network" := StrList(networks)]);
    } else {
      NothingToUpdate(specs.entries, NetworkPart(bands));
    }
  }

  /** The third stretch, which stops at an exception from the screen size,
      the network table walk, the cameras or the screen resolution. */
  method UpdateTail(specs: SpecSheet, raw: RawTable, t: TextTable, schema: Schema, ext: Externals)
    returns (failure: Option<Fault>)
    requires specs.Valid() && WellFormed(schema, ext)
    modifies specs
    ensures failure == FirstFault(TailFaults(raw, t, ext))
    ensures specs.Valid()
    ensures failure.None? ==>
              ext.screenSize.Ok? && ext.bands.Ok? && CameraPart(raw).Ok? && ScreenResolution(t).Ok? &&
              CameraPart(raw).value.Keys <= TAIL_KEYS && ScreenResolution(t).value.Keys <= TAIL_KEYS &&
              specs.entries == FoldTail(old(specs.entries), t, ext.screenSize.value, ext.bands.value,
                                        CameraPart(raw).value, ScreenResolution(t).value, schema.vendors)
  {
    NamePartKeys(t, schema.vendors);
    StretchKeys();
    ghost var a, b := FaultOf(ext.screenSize), FaultOf(ext.bands);
    ghost var c, d := FaultOf(CameraPart(raw)), FaultOf(ScreenResolution(t));
    assert TailFaults(raw, t, ext) == [a, b, c, d];
    FirstOfFour(a, b, c, d);
    if ext.screenSize.Err? {
      return Some(ext.screenSize.fault);
    }
    specs.Update(ext.screenSize.value);
    if ext.bands.Err? {
      return Some(ext.bands.fault);
    }
    TailPartKeys(raw, t, ext.bands.value);
    UpdateNetwork(specs, ext.bands.value);
    var cameras := ParseCamera(raw);
    if cameras.Err? {
      return Some(cameras.fault);
    }
    assert cameras.value.Keys == {"cameras"};
    specs.Update(cameras.value);
    var screen := ParseScreenRes(t);
    if screen.Err? {
      return Some(screen.fault);
    }
    assert screen.value.Keys <= {"screen_ppi", "screen_res"};
    specs.Update(screen.value);
    var part := ParseModelName(t, schema.vendors);
    specs.Update(part);
    return None;
  }

  /** `main()` between fetching the page and printing the document: the
      updates in order; an exception ends the run without a document. */
  method Assemble(raw: RawTable, schema: Schema, ext: Externals) returns (r: Result<Partial>)
    requires PlainOutsideCameras(raw) && WellFormed(schema, ext)
    ensures r == Assembled(raw, schema, ext)
  {
    var t := TextView(raw);
    FirstFaultAppend(HeadFaults(ext), MiddleFaults(t));
    FirstFaultAppend(HeadFaults(ext) + MiddleFaults(t), TailFaults(raw, t, ext));
    var specs := new SpecSheet(schema.required);
    var failure := UpdateHead(specs, t, ext);
    if failure.Some? {
      return Err(failure.value);
    }
    failure := UpdateMiddle(specs, t);
    if failure.Some? {
      return Err(failure.value);
    }
    failure := UpdateTail(specs, raw, t, schema, ext);
    if failure.Some? {
      return Err(failure.value);
    }
    var part := ParseBluetoothSpec(t, schema.extras);
    specs.UpdateBluetooth(part);
    return Ok(specs.entries);
  }
}
