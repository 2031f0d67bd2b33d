/** `parse_bluetooth_spec` and `parse_bluetooth_profile`: the two keys the
    extractors write under `bluetooth`. */
module BluetoothExtraction {
  import opened Base
  import opened Strings
  import opened Table
  import opened Scan
  import opened Patterns

  /** The version token with `5.0` rewritten to `5`. */
  function MainVersion(token: string): (v: string)
    ensures v == "5" <==> token == "5.0" || token == "5"
    ensures v != "5" ==> v == token
  {
    if token == "5.0" then "5" else token
  }

  /** The additional tokens kept, in the schema's order: each one the field
      mentions, except `LE` unless the main version is exactly `4.0`. */
  function KeptExtras(field: string, main: string, extras: seq<string>): (kept: seq<string>)
    ensures forall e :: e in kept <==> e in extras && Contains(field, e) && (e == "LE" ==> main == "4.0")
    ensures |kept| <= |extras|
    decreases |extras|
  {
    if extras == [] then []
    else
      var e := extras[|extras| - 1];
      var front := KeptExtras(field, main, extras[..|extras| - 1]);
      assert forall x :: x in extras <==> x in extras[..|extras| - 1] || x == e;
      if Contains(field, e) && !(e == "LE" && main != "4.0") then front + [e] else front
  }

  /** One more additional token: appended when kept. */
  lemma KeptStep(field: string, main: string, extras: seq<string>, i: nat)
    requires i < |extras|
    ensures Contains(field, extras[i]) && !(extras[i] == "LE" && main != "4.0") ==>
              KeptExtras(field, main, extras[..i + 1]) == KeptExtras(field, main, extras[..i]) + [extras[i]]
    ensures !(Contains(field, extras[i]) && !(extras[i] == "LE" && main != "4.0")) ==>
              KeptExtras(field, main, extras[..i + 1]) == KeptExtras(field, main, extras[..i])
  {
    assert extras[..i + 1][..i] == extras[..i];
    assert extras[..i + 1][i] == extras[i];
  }

  /** The `spec` contribution: empty when the field is missing, empty, or
      has no version token; otherwise the main version and the kept
      additional tokens joined with " + ". */
  function BluetoothSpec(t: TextTable, extras: seq<string>): (r: Partial)
    ensures r == map[] <==> FirstOf(t, "bluetooth").Err? || VersionToken(FirstOf(t, "bluetooth").value).None?
    ensures r != map[] ==> r.Keys == {"spec"} && r["spec"].Str?
  {
    match FirstOf(t, "bluetooth")
    case Err(_) => map[]
    case Ok(field) =>
      match VersionToken(field)
      case None => map[]
      case Some(token) =>
        var main := MainVersion(token);
        var r := map["spec" := Str(Join(" + ", [main] + KeptExtras(field, main, extras)))];
        assert "spec" in r && r.Keys == {"spec"};
        r
  }

  /** `parse_bluetooth_spec`: the first version token, then a loop over the
      additional tokens appending the kept ones. */
  method ParseBluetoothSpec(t: TextTable, extras: seq<string>) returns (part: Partial)
    ensures part == BluetoothSpec(t, extras)
  {
    if "bluetooth" !in t || t["bluetooth"] == [] {
      return map[];
    }
    var field := t["bluetooth"][0];
    var token := VersionToken(field);
    if token.None? {
      return map[];
    }
    var main := MainVersion(token.value);
    var btSpec := AppendKept(field, main, extras);
    part := map["spec" := Str(Join(" + ", btSpec))];
  }

  /** The loop of `parse_bluetooth_spec`: starting from the main version,
      appends each additional token the field mentions, skipping `LE` unless
      the list starts with `4.0`. */
  method AppendKept(field: string, main: string, extras: seq<string>) returns (btSpec: seq<string>)
    ensures btSpec == [main] + KeptExtras(field, main, extras)
  {
    btSpec := [main];
    var i := 0;
    while i < |extras|
      invariant 0 <= i <= |extras|
      invariant btSpec == [main] + KeptExtras(field, main, extras[..i])
    {
      var addProp := extras[i];
      KeptStep(field, main, extras, i);
      ghost var kept := KeptExtras(field, main, extras[..i]);
      assert btSpec[0] == main;
      if Contains(field, addProp) && !(addProp == "LE" && btSpec[0] != "4.0") {
        btSpec := btSpec + [addProp];
        assert btSpec == [main] + (kept + [addProp]);
      }
      i := i + 1;
    }
    assert extras[..i] == extras;
  }

  /** `LE` is reported only next to main version `4.0`, and only when the
      field mentions it; the version is never `5.0`. */
  lemma LeOnlyWithFourZero(field: string, token: string, extras: seq<string>)
    ensures "LE" in KeptExtras(field, MainVersion(token), extras) ==>
              MainVersion(token) == "4.0" && "LE" in extras && Contains(field, "LE")
    ensures MainVersion(token) != "5.0"
  {
  }

  /** A field starting with "<d>.0, " has "<d>.0" as its first version token. */
  lemma LeadingVersion(d: char, rest: string)
    requires IsDigit(d)
    ensures VersionToken([d, '.', '0', ',', ' '] + rest) == Some([d, '.', '0'])
  {
    var field := [d, '.', '0', ',', ' '] + rest;
    assert field[..3] == [d, '.', '0'];
    assert DigitEnd(field, 0) == 1 by { assert DigitEnd(field, 1) == 1; }
    assert DigitEnd(field, 2) == 3 by { assert DigitEnd(field, 3) == 3; }
    assert LetterThenBoundary(field, 3) == Some(3);
    assert FractionThenBoundary(field, 2, 3) == Some((3, 3));
    assert DotThenBoundary(field, 1) == Some((2, 3, 3));
    assert IntegerThenRest(field, 0, 1) == Some((1, 2, 3, 3));
    assert VersionAt(field, 0) == Some(Found(field[..3], 3));
    var at := q => VersionAt(field, q);
    assert Leftmost(at, 0, |field|) == Some((0, Found(field[..3], 3)));
  }

  /** The spec for a field whose first version token and kept extras are known. */
  lemma SpecOf(t: TextTable, extras: seq<string>, token: string, kept: seq<string>)
    requires FirstOf(t, "bluetooth").Ok?
    requires VersionToken(FirstOf(t, "bluetooth").value) == Some(token)
    requires KeptExtras(FirstOf(t, "bluetooth").value, MainVersion(token), extras) == kept
    ensures BluetoothSpec(t, extras) == map["spec" := Str(Join(" + ", [MainVersion(token)] + kept))]
  {
  }

  /** "5.0, A2DP, LE" gives "5": the version is shortened and `LE` is not kept. */
  lemma FiveZeroExample(t: TextTable)
    requires FirstOf(t, "bluetooth") == Ok("5.0, A2DP, LE")
    ensures BluetoothSpec(t, ["LE"]) == map["spec" := Str("5")]
  {
    var field := "5.0, A2DP, LE";
    assert field == ['5', '.', '0', ',', ' '] + "A2DP, LE";
    LeadingVersion('5', "A2DP, LE");
    assert KeptExtras(field, "5", ["LE"]) == [] by {
      assert ["LE"][..0] == [];
    }
    SpecOf(t, ["LE"], "5.0", []);
    assert [MainVersion("5.0")] + [] == ["5"];
  }

  lemma JoinPair(sep: string, a: string, b: string)
    ensures Join(sep, [a, b]) == a + sep + b
  {
    assert [a, b][1..] == [b];
  }

  lemma FourZeroText()
    ensures "4.0" + " + " + "LE" == "4.0 + LE"
  {
    assert ("4.0" + " + ")[3..] == " + ";
  }

  /** With main version `4.0`, a mentioned `LE` is kept. */
  lemma KeepsMentionedLe(field: string, i: nat)
    requires i + 2 <= |field| && field[i..i + 2] == "LE"
    ensures KeptExtras(field, "4.0", ["LE"]) == ["LE"]
  {
    ContainsIff(field, "LE", i);
    assert ["LE"][..0] == [];
  }

  /** The first version token of "4.0, A2DP, LE" is `4.0`. */
  lemma FourZeroToken()
    ensures VersionToken("4.0, A2DP, LE") == Some("4.0")
  {
    assert "4.0, A2DP, LE" == ['4', '.', '0', ',', ' '] + "A2DP, LE";
    LeadingVersion('4', "A2DP, LE");
  }

  /** "4.0, A2DP, LE" mentions `LE`, which version `4.0` keeps. */
  lemma FourZeroKept()
    ensures KeptExtras("4.0, A2DP, LE", "4.0", ["LE"]) == ["LE"]
  {
    var field := "4.0, A2DP, LE";
    assert field[11..13] == "LE";
    KeepsMentionedLe(field, 11);
  }

  /** "4.0, A2DP, LE" gives "4.0 + LE". */
  lemma FourZeroExample(t: TextTable)
    requires FirstOf(t, "bluetooth") == Ok("4.0, A2DP, LE")
    ensures BluetoothSpec(t, ["LE"]) == map["spec" := Str("4.0 + LE")]
  {
    FourZeroToken();
    FourZeroKept();
    SpecOf(t, ["LE"], "4.0", ["LE"]);
    assert [MainVersion("4.0")] + ["LE"] == ["4.0", "LE"];
    JoinPair(" + ", "4.0", "LE");
    FourZeroText();
  }

  /** The profile names in priority order, with the profile each one reports. */
  const ProfilePriority: seq<(string, string)> :=
    [("aptX HD", "A2DP + aptX HD"), ("aptX", "A2DP + aptX"), ("A2DP", "A2DP")]

  /** `parse_bluetooth_profile`. The field is read outside the `try`, so a
      missing or empty field escapes as an exception. At most one profile is
      reported: the first of the priority list that is one of the field's
      comma-separated tokens. */
  function BluetoothProfile(t: TextTable): (r: Result<Partial>)
    ensures r.Ok? ==> r.value.Keys <= {"profiles"}
    ensures r.Err? <==> FirstOf(t, "bluetooth").Err?
    ensures r.Err? ==> r.fault == FirstOf(t, "bluetooth").fault
    ensures r.Ok? ==> var tokens := Split(FirstOf(t, "bluetooth").value, ", ");
              && (r.value == map[] <==> forall k :: 0 <= k < |ProfilePriority| ==> ProfilePriority[k].0 !in tokens)
              && (r.value != map[] ==>
                    exists k :: 0 <= k < |ProfilePriority| && ProfilePriority[k].0 in tokens &&
                      (forall j :: 0 <= j < k ==> ProfilePriority[j].0 !in tokens) &&
                      r.value == map["profiles" := StrList([ProfilePriority[k].1])])
  {
    match FirstOf(t, "bluetooth")
    case Err(e) => Err(e)
    case Ok(field) =>
      var rawBtInfo := Split(field, ", ");
      assert ProfilePriority[0].0 == "aptX HD" && ProfilePriority[1].0 == "aptX" && ProfilePriority[2].0 == "A2DP";
      var profiles :=
        if "aptX HD" in rawBtInfo then ["A2DP + aptX HD"]
        else if "aptX" in rawBtInfo then ["A2DP + aptX"]
        else if "A2DP" in rawBtInfo then ["A2DP"]
        else [];
      if profiles != [] then
        var r := map["profiles" := StrList(profiles)];
        assert "profiles" in r;
        Ok(r)
      else Ok(map[])
  }
}
