/** `parse_dimensions`, `parse_model_numbers` and `parse_model_name`: the
    body size and the names of the device. */
module IdentityExtraction {
  import opened Base
  import opened Strings
  import opened Table
  import opened Patterns
  import opened Scan

  /** One axis: the millimetre value of the first triple and the inch value
      of the second. */
  function Axis(mm: string, inches: string): string
  {
    mm + " mm (" + inches + " in)"
  }

  /** `parse_dimensions`: needs two `a x b x c` triples in the first
      `dimensions` fragment; reading the second one fails before any key is
      set, so with fewer than two nothing is reported. */
  function ParseDimensions(t: TextTable): (r: Partial)
    ensures r.Keys <= {"height", "width", "depth"}
    ensures r != map[] <==> FirstOf(t, "dimensions").Ok? && |Triples(FirstOf(t, "dimensions").value)| >= 2
    ensures r != map[] ==>
              var triples := Triples(FirstOf(t, "dimensions").value);
              var (mm, inches) := (triples[0], triples[1]);
              && r.Keys == {"height", "width", "depth"}
              && r["height"] == Str(Axis(mm.x, inches.x))
              && r["width"] == Str(Axis(mm.y, inches.y))
              && r["depth"] == Str(Axis(mm.z, inches.z))
  {
    match FirstOf(t, "dimensions")
    case Err(_) => map[]
    case Ok(dims) =>
      var triples := Triples(dims);
      if |triples| < 2 then map[]
      else
        var r := map["height" := Str(Axis(triples[0].x, triples[1].x)),
                     "width" := Str(Axis(triples[0].y, triples[1].y)),
                     "depth" := Str(Axis(triples[0].z, triples[1].z))];
        assert "height" in r;
        r
  }

  /** A dimensions field as the site writes it: the millimetre triple,
      then the inch triple in parentheses. */
  function DimensionsText(mm: Triple, inches: Triple): string
  {
    TripleText(mm) + " mm (" + TripleText(inches) + " in)"
  }

  /** The millimetre triple is matched at the start of the field. */
  lemma MillimetresAt(s: string, mm: Triple, inches: Triple, m: nat)
    requires s == DimensionsText(mm, inches) && m == |TripleText(mm)|
    requires Written(mm)
    ensures TripleAt(s, 0) == Some(Found(mm, m))
  {
    var post := " mm (" + TripleText(inches) + " in)";
    assert s == [] + TripleText(mm) + post;
    TripleAtText(s, [], mm, post, 0, m);
  }

  /** The inch triple is matched at `p`, right after `" mm ("`. */
  lemma InchesAt(s: string, mm: Triple, inches: Triple, p: nat, e: nat)
    requires s == DimensionsText(mm, inches) && p == |TripleText(mm)| + 5 && e == p + |TripleText(inches)|
    requires Written(inches)
    ensures TripleAt(s, p) == Some(Found(inches, e))
  {
    TripleAtText(s, TripleText(mm) + " mm (", inches, " in)", p, e);
  }

  /** No triple starts inside `" mm ("`. */
  lemma NothingBetween(s: string, mm: Triple, inches: Triple, m: nat)
    requires s == DimensionsText(mm, inches) && m == |TripleText(mm)|
    ensures forall q :: m <= q < m + 5 ==> TripleAt(s, q).None?
  {
    assert s[m] == ' ' && s[m + 1] == 'm' && s[m + 2] == 'm' && s[m + 3] == ' ' && s[m + 4] == '(';
    forall q | m <= q < m + 5
      ensures TripleAt(s, q).None?
    {
      if q == m || q == m + 3 {
        NoTripleAt(s, q, q + 1);
      } else {
        NoTripleAt(s, q, q);
      }
    }
  }

  /** The first two triples of such a field are the millimetre and the inch
      triple, in that order. */
  lemma DimensionsTriples(s: string, mm: Triple, inches: Triple)
    requires s == DimensionsText(mm, inches) && Written(mm) && Written(inches)
    ensures |Triples(s)| >= 2 && Triples(s)[0] == mm && Triples(s)[1] == inches
  {
    var m := |TripleText(mm)|;
    var p := m + 5;
    var e := p + |TripleText(inches)|;
    var at := TripleMatcher(s);
    MillimetresAt(s, mm, inches, m);
    InchesAt(s, mm, inches, p, e);
    NothingBetween(s, mm, inches, m);
    FindAllFirstTwo(at, 0, |s|, Found(mm, m), p, Found(inches, e));
  }

  /** Each axis of such a field reads as its millimetre value, then its inch
      value in parentheses. */
  lemma DimensionsOf(mm: Triple, inches: Triple)
    requires Written(mm) && Written(inches)
    ensures var r := ParseDimensions(map["dimensions" := [DimensionsText(mm, inches)]]);
            && r.Keys == {"height", "width", "depth"}
            && r["height"] == Str(Axis(mm.x, inches.x))
            && r["width"] == Str(Axis(mm.y, inches.y))
            && r["depth"] == Str(Axis(mm.z, inches.z))
  {
    var t: TextTable := map["dimensions" := [DimensionsText(mm, inches)]];
    assert FirstOf(t, "dimensions") == Ok(DimensionsText(mm, inches));
    DimensionsTriples(DimensionsText(mm, inches), mm, inches);
  }

  /** The millimetre numbers of the example field are written as the
      pattern reads them. */
  lemma MillimetresWritten(mm: Triple)
    requires mm == Triple("160.2", "75.1", "8.2")
    ensures Written(mm)
  {
    assert IsPointNumber(mm.x) by { assert mm.x[3] == '.' && mm.x[..3] == "160" && mm.x[4..] == "2"; }
    assert IsPointNumber(mm.y) by { assert mm.y[2] == '.' && mm.y[..2] == "75" && mm.y[3..] == "1"; }
    assert IsPointNumber(mm.z) by { assert mm.z[1] == '.' && mm.z[..1] == "8" && mm.z[2..] == "2"; }
  }

  /** The inch numbers of the example field are written as the pattern
      reads them. */
  lemma InchesWritten(inches: Triple)
    requires inches == Triple("6.31", "2.96", "0.32")
    ensures Written(inches)
  {
    assert IsPointNumber(inches.x) by { assert inches.x[1] == '.' && inches.x[..1] == "6" && inches.x[2..] == "31"; }
    assert IsPointNumber(inches.y) by { assert inches.y[1] == '.' && inches.y[..1] == "2" && inches.y[2..] == "96"; }
    assert IsPointNumber(inches.z) by { assert inches.z[1] == '.' && inches.z[..1] == "0" && inches.z[2..] == "32"; }
  }

  /** The example field is the two triples written as the site writes
      them, and its axes read as the example says. */
  lemma ExampleText(field: string, mm: Triple, inches: Triple)
    requires field == "160.2 x 75.1 x 8.2" + " mm (" + "6.31 x 2.96 x 0.32" + " in)"
    requires mm == Triple("160.2", "75.1", "8.2") && inches == Triple("6.31", "2.96", "0.32")
    ensures field == DimensionsText(mm, inches)
    ensures Axis(mm.x, inches.x) == "160.2 mm (6.31 in)"
    ensures Axis(mm.y, inches.y) == "75.1 mm (2.96 in)"
    ensures Axis(mm.z, inches.z) == "8.2 mm (0.32 in)"
  {
    assert TripleText(mm) == "160.2 x 75.1 x 8.2";
    assert TripleText(inches) == "6.31 x 2.96 x 0.32";
  }

  /** `"160.2 x 75.1 x 8.2 mm (6.31 x 2.96 x 0.32 in)"` reports the height
      `"160.2 mm (6.31 in)"`, the width `"75.1 mm (2.96 in)"` and the depth
      `"8.2 mm (0.32 in)"`. */
  lemma DimensionsExample(field: string)
    requires field == "160.2 x 75.1 x 8.2" + " mm (" + "6.31 x 2.96 x 0.32" + " in)"
    ensures var r := ParseDimensions(map["dimensions" := [field]]);
            && r.Keys == {"height", "width", "depth"}
            && r["height"] == Str("160.2 mm (6.31 in)")
            && r["width"] == Str("75.1 mm (2.96 in)")
            && r["depth"] == Str("8.2 mm (0.32 in)")
  {
    var mm := Triple("160.2", "75.1", "8.2");
    var inches := Triple("6.31", "2.96", "0.32");
    MillimetresWritten(mm);
    InchesWritten(inches);
    ExampleText(field, mm, inches);
    DimensionsOf(mm, inches);
  }

  /** `parse_model_numbers`: the first `models` fragment split on ", ". The
      pieces never contain the separator and join back to the fragment. */
  function ParseModelNumbers(t: TextTable): (r: Partial)
    ensures r.Keys <= {"models"}
    ensures r != map[] <==> FirstOf(t, "models").Ok?
    ensures r != map[] ==>
              && r.Keys == {"models"} && r["models"].StrList?
              && Join(", ", r["models"].items) == FirstOf(t, "models").value
              && forall k :: 0 <= k < |r["models"].items| ==> !Contains(r["models"].items[k], ", ")
  {
    match FirstOf(t, "models")
    case Err(_) => map[]
    case Ok(models) =>
      JoinSplit(models, ", ");
      var r := map["models" := StrList(Split(models, ", "))];
      assert "models" in r;
      r
  }

  /** `re.sub(vendor + r'\s?', '', s, count)` for a vendor matched
      literally: at most `count` occurrences, each with one following
      whitespace character if there is one, removed left to right. Case
      matters: the flag meant to ignore it is passed as the count. */
  function StripVendor(s: string, vendor: string, count: nat): (r: string)
    requires vendor != []
    ensures |r| <= |s|
    ensures !Contains(s, vendor) || count == 0 ==> r == s
    ensures Contains(s, vendor) && count > 0 ==> |r| < |s|
    ensures |s| - |r| <= count * (|vendor| + 1)
    ensures IndexOf(s, vendor, 0).Some? && count > 0 ==>
              var i := IndexOf(s, vendor, 0).value;
              i <= |r| && r[..i] == s[..i]
    decreases |s|
  {
    if count == 0 then s
    else
      match IndexOf(s, vendor, 0)
      case None => s
      case Some(i) =>
        var e := i + |vendor|;
        var e' := if e < |s| && IsSpace(s[e]) then e + 1 else e;
        s[..i] + StripVendor(s[e'..], vendor, count - 1)
  }

  /** `re.IGNORECASE`, the value that lands in `re.sub`'s count. */
  const IGNORECASE: nat := 2

  /** A name that starts with the vendor, then one whitespace character or
      none (when no whitespace follows), and does not mention the vendor
      again, loses exactly that prefix. */
  lemma StripLeadingVendor(vendor: string, sep: string, rest: string)
    requires vendor != [] && !Contains(rest, vendor)
    requires (|sep| == 1 && IsSpace(sep[0])) || (sep == [] && (rest == [] || !IsSpace(rest[0])))
    ensures StripVendor(vendor + sep + rest, vendor, IGNORECASE) == rest
  {
    var s := vendor + sep + rest;
    assert s[0..|vendor|] == vendor;
    assert IndexOf(s, vendor, 0) == Some(0);
    assert s[|vendor| + |sep|..] == rest;
    if sep == [] && rest != [] {
      assert s[|vendor|] == rest[0];
    }
  }

  /** The five keys one matching vendor sets. */
  function VendorKeys(modelName: string, vendor: string): (r: Partial)
    requires vendor != []
    ensures r.Keys == {"name", "vendor", "vendor_short", "tree", "kernel"}
    ensures r["name"] == Str(StripVendor(modelName, vendor, IGNORECASE))
    ensures r["vendor"] == Str(vendor) && r["vendor_short"] == Str(Lower(vendor))
    ensures r["tree"] == Str("android_device_" + Lower(vendor) + "_CODENAME")
    ensures r["kernel"] == Str("android_kernel_" + Lower(vendor) + "_CODENAME")
  {
    var short := Lower(vendor);
    map["name" := Str(StripVendor(modelName, vendor, IGNORECASE)),
        "vendor" := Str(vendor),
        "vendor_short" := Str(short),
        "tree" := Str("android_device_" + short + "_CODENAME"),
        "kernel" := Str("android_kernel_" + short + "_CODENAME")]
  }

  /** The vendor at `k` occurs in the model name, ignoring case. */
  predicate VendorNamed(modelName: string, vendors: seq<string>, k: nat)
    requires k < |vendors|
  {
    Contains(Lower(modelName), Lower(vendors[k]))
  }

  /** The last vendor in list order that the model name mentions. */
  function LastVendor(modelName: string, vendors: seq<string>): (r: Option<nat>)
    ensures r.Some? ==> r.value < |vendors| && VendorNamed(modelName, vendors, r.value)
    ensures r.Some? ==> forall j :: r.value < j < |vendors| ==> !VendorNamed(modelName, vendors, j)
    ensures r.None? ==> forall j :: 0 <= j < |vendors| ==> !VendorNamed(modelName, vendors, j)
    decreases |vendors|
  {
    if vendors == [] then None
    else
      var n := |vendors| - 1;
      if VendorNamed(modelName, vendors, n) then Some(n)
      else
        var r := LastVendor(modelName, vendors[..n]);
        assert forall j :: 0 <= j < n ==> VendorNamed(modelName, vendors[..n], j) == VendorNamed(modelName, vendors, j);
        r
  }

  /** The keys of the last vendor in `vendors` the model name mentions. */
  function LastVendorKeys(modelName: string, vendors: seq<string>): Partial
    requires forall v :: v in vendors ==> v != []
  {
    match LastVendor(modelName, vendors)
    case None => map[]
    case Some(k) =>
      assert vendors[k] in vendors;
      VendorKeys(modelName, vendors[k])
  }

  /** What `parse_model_name` reports: the keys of the last vendor the
      first `modelname` fragment mentions; nothing when the field is missing
      or empty or no vendor is mentioned. */
  function ModelName(t: TextTable, vendors: seq<string>): (r: Partial)
    requires forall v :: v in vendors ==> v != []
    ensures r.Keys <= {"name", "vendor", "vendor_short", "tree", "kernel"}
    ensures r == map[] <==> FirstOf(t, "modelname").Err? ||
                            forall j :: 0 <= j < |vendors| ==> !VendorNamed(FirstOf(t, "modelname").value, vendors, j)
    ensures r != map[] ==> r.Keys == {"name", "vendor", "vendor_short", "tree", "kernel"}
    ensures r != map[] ==>
              exists k :: 0 <= k < |vendors| && VendorNamed(FirstOf(t, "modelname").value, vendors, k) &&
                (forall j :: k < j < |vendors| ==> !VendorNamed(FirstOf(t, "modelname").value, vendors, j)) &&
                vendors[k] in vendors && r == VendorKeys(FirstOf(t, "modelname").value, vendors[k])
  {
    match FirstOf(t, "modelname")
    case Err(_) => map[]
    case Ok(modelName) =>
      var r := LastVendorKeys(modelName, vendors);
      assert LastVendor(modelName, vendors).Some? ==> "name" in r;
      r
  }

  /** `parse_model_name`: a loop over the vendors in which every match
      overwrites the five keys. */
  method ParseModelName(t: TextTable, vendors: seq<string>) returns (out: Partial)
    requires forall v :: v in vendors ==> v != []
    ensures out == ModelName(t, vendors)
  {
    out := map[];
    if "modelname" !in t || t["modelname"] == [] {
      return;
    }
    var modelName := t["modelname"][0];
    var i := 0;
    while i < |vendors|
      invariant 0 <= i <= |vendors|
      invariant forall v :: v in vendors[..i] ==> v != []
      invariant out == LastVendorKeys(modelName, vendors[..i])
    {
      var vendor := vendors[i];
      assert vendor in vendors;
      assert vendors[..i + 1] == vendors[..i] + [vendor];
      assert vendors[..i + 1][..i] == vendors[..i];
      if Contains(Lower(modelName), Lower(vendor)) {
        out := VendorKeys(modelName, vendor);
      }
      i := i + 1;
    }
    assert vendors[..i] == vendors;
  }

  /** A last-mentioned vendor found only by ignoring case is still reported,
      but the model name keeps it: the removal itself respects case. */
  lemma CaseSensitiveStrip(t: TextTable, vendors: seq<string>)
    requires forall v :: v in vendors ==> v != []
    requires FirstOf(t, "modelname").Ok? && LastVendor(FirstOf(t, "modelname").value, vendors).Some?
    requires !Contains(FirstOf(t, "modelname").value, vendors[LastVendor(FirstOf(t, "modelname").value, vendors).value])
    ensures var modelName := FirstOf(t, "modelname").value;
            var k := LastVendor(modelName, vendors).value;
            && ModelName(t, vendors)["vendor"] == Str(vendors[k])
            && ModelName(t, vendors)["name"] == Str(modelName)
  {
    var modelName := FirstOf(t, "modelname").value;
    var k := LastVendor(modelName, vendors).value;
    assert vendors[k] in vendors;
    assert ModelName(t, vendors) == VendorKeys(modelName, vendors[k]);
  }
}
