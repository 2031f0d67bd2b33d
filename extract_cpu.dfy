/** `parse_cpu_cores`, `parse_cpu_freqs`, `parse_cpu_model` and `parse_gpu`:
    the processor fields. */
module ProcessorExtraction {
  import opened Base
  import opened Strings
  import opened Table
  import opened Patterns
  import opened Scan

  /** The core-count names in declaration order, with their counts. */
  const CPU_CORES: seq<(string, nat)> :=
    [("Deca-core", 10), ("Octa-core", 8), ("Hexa-core", 6), ("Quad-core", 4), ("Dual-core", 2)]

  /** The core-count entry at `k` names the processor, ignoring case. */
  predicate CoresNamed(cpu: string, k: nat)
    requires k < |CPU_CORES|
  {
    Contains(Lower(cpu), Lower(CPU_CORES[k].0))
  }

  /** The first entry from `from` on whose name the processor field mentions. */
  function FirstCoresNamed(cpu: string, from: nat): (r: Option<nat>)
    ensures r.Some? ==> from <= r.value < |CPU_CORES| && CoresNamed(cpu, r.value)
    ensures r.Some? ==> forall j :: from <= j < r.value ==> !CoresNamed(cpu, j)
    ensures r.None? ==> forall j :: from <= j < |CPU_CORES| ==> !CoresNamed(cpu, j)
    decreases |CPU_CORES| - from
  {
    if from >= |CPU_CORES| then None
    else if CoresNamed(cpu, from) then Some(from)
    else FirstCoresNamed(cpu, from + 1)
  }

  /** `parse_cpu_cores`: the count of the first core-count name, in
      declaration order, that the first `cpu` fragment mentions. */
  function ParseCpuCores(t: TextTable): (r: Partial)
    ensures r.Keys <= {"cpu_cores"}
    ensures r == map[] <==> FirstOf(t, "cpu").Err? ||
                            forall k :: 0 <= k < |CPU_CORES| ==> !CoresNamed(FirstOf(t, "cpu").value, k)
    ensures r != map[] ==>
              exists k :: 0 <= k < |CPU_CORES| && CoresNamed(FirstOf(t, "cpu").value, k) &&
                (forall j :: 0 <= j < k ==> !CoresNamed(FirstOf(t, "cpu").value, j)) &&
                r == map["cpu_cores" := Str(Decimal(CPU_CORES[k].1))]
  {
    match FirstOf(t, "cpu")
    case Err(_) => map[]
    case Ok(cpu) =>
      match FirstCoresNamed(cpu, 0)
      case None => map[]
      case Some(k) =>
        var r := map["cpu_cores" := Str(Decimal(CPU_CORES[k].1))];
        assert "cpu_cores" in r;
        r
  }

  /** An octa-core processor that is not also called deca-core has 8 cores. */
  lemma OctaCore(t: TextTable)
    requires FirstOf(t, "cpu").Ok?
    requires Contains(Lower(FirstOf(t, "cpu").value), "octa-core")
    requires !Contains(Lower(FirstOf(t, "cpu").value), "deca-core")
    ensures ParseCpuCores(t) == map["cpu_cores" := Str("8")]
  {
    var cpu := FirstOf(t, "cpu").value;
    assert Lower("Deca-core") == "deca-core";
    assert Lower("Octa-core") == "octa-core";
    assert !CoresNamed(cpu, 0) && CoresNamed(cpu, 1);
    assert FirstCoresNamed(cpu, 0) == Some(1);
    assert Decimal(8) == "8";
  }

  /** One frequency group as reported: "<count> x <clock> GHz". */
  function FreqLabel(f: Freq): string
  {
    f.count + " x " + f.clock + " GHz"
  }

  /** `parse_cpu_freqs`: every frequency group of the first `cpu` fragment,
      in order, joined with " + "; empty when there is none. */
  function ParseCpuFreqs(t: TextTable): (r: Partial)
    ensures r.Keys <= {"cpu_freq"}
    ensures r == map[] <==> FirstOf(t, "cpu").Err? || CpuFreqs(FirstOf(t, "cpu").value) == []
    ensures r != map[] ==>
              var groups := CpuFreqs(FirstOf(t, "cpu").value);
              r == map["cpu_freq" := Str(Join(" + ", seq(|groups|, i requires 0 <= i < |groups| => FreqLabel(groups[i]))))]
  {
    match FirstOf(t, "cpu")
    case Err(_) => map[]
    case Ok(cpu) =>
      var groups := CpuFreqs(cpu);
      if groups == [] then map[]
      else
        var r := map["cpu_freq" := Str(Join(" + ", seq(|groups|, i requires 0 <= i < |groups| => FreqLabel(groups[i]))))];
        assert "cpu_freq" in r;
        r
  }

  /** Python's `x.replace(' ', '-')`. */
  function Dashed(x: string): (r: string)
    ensures |r| == |x| && ' ' !in r
    ensures forall i :: 0 <= i < |x| ==> r[i] == (if x[i] == ' ' then '-' else x[i])
  {
    seq(|x|, i requires 0 <= i < |x| => if x[i] == ' ' then '-' else x[i])
  }

  /** The Cortex matches with their spaces replaced by dashes. */
  function CortexNames(cpu: string): (r: seq<string>)
    ensures |r| == |CortexCores(cpu)|
    ensures forall k :: 0 <= k < |r| ==> r[k] == Dashed(CortexCores(cpu)[k])
  {
    var cores := CortexCores(cpu);
    seq(|cores|, k requires 0 <= k < |cores| => Dashed(cores[k]))
  }

  /** The characters of a string, each as a one-character string: what
      iterating over a Python `str` yields. */
  function Characters(x: string): (r: seq<string>)
    ensures |r| == |x| && forall i :: 0 <= i < |x| ==> r[i] == [x[i]]
  {
    seq(|x|, i requires 0 <= i < |x| => [x[i]])
  }

  /** The separator `" & "` that `join` puts between two characters. */
  const AMP: string := " & "

  /** Joining the characters of `x` with `" & "` puts `x[i]` at `4 * i` and
      the separator in every other position. */
  lemma {:induction false} JoinCharacters(x: string)
    ensures var r := Join(AMP, Characters(x));
            && |r| == (if x == [] then 0 else 4 * |x| - 3)
            && (forall i :: 0 <= i < |x| ==> r[4 * i] == x[i])
            && (forall k :: 0 <= k < |r| && k % 4 != 0 ==> r[k] == AMP[k % 4 - 1])
    decreases |x|
  {
    if |x| >= 2 {
      JoinCharacters(x[1..]);
      var tail := Join(AMP, Characters(x[1..]));
      var r := Join(AMP, Characters(x));
      assert Characters(x)[1..] == Characters(x[1..]);
      assert r == [x[0]] + AMP + tail;
      forall i | 0 <= i < |x| ensures r[4 * i] == x[i] {
        if i > 0 {
          assert r[4 * i] == tail[4 * (i - 1)];
          assert x[1..][i - 1] == x[i];
        }
      }
      forall k | 0 <= k < |r| && k % 4 != 0 ensures r[k] == AMP[k % 4 - 1] {
        if k >= 4 {
          assert r[k] == tail[k - 4];
          assert (k - 4) % 4 == k % 4;
        }
      }
    }
  }

  /** `' & '.join(*match)`: with one match the string itself is the
      iterable, so its characters are joined, each at a position divisible
      by four with `" & "` between them; with none or several, `join` gets
      the wrong number of arguments. */
  function JoinUnpacked(names: seq<string>): (r: Result<string>)
    ensures r.Ok? <==> |names| == 1
    ensures r.Err? ==> r.fault == TypeError
    ensures r.Ok? ==> var x := names[0];
                      && |r.value| == (if x == [] then 0 else 4 * |x| - 3)
                      && (forall i :: 0 <= i < |x| ==> r.value[4 * i] == x[i])
                      && (forall k :: 0 <= k < |r.value| && k % 4 != 0 ==> r.value[k] == AMP[k % 4 - 1])
  {
    if |names| == 1 then
      JoinCharacters(names[0]);
      Ok(Join(AMP, Characters(names[0])))
    else Err(TypeError)
  }

  /** The rules of `parse_cpu_model` applied to a readable processor field:
      Kryo, then Krait, then Atom, then Denver, then the Cortex cores; the
      first rule whose word the field mentions decides, and the Cortex rule
      raises a `TypeError` unless it finds exactly one core name. */
  function CpuModelOf(cpu: string): (r: Result<Partial>)
    ensures r.Ok? ==> r.value.Keys <= {"cpu"}
    ensures r.Ok? && r.value != map[] ==> r.value.Keys == {"cpu"} && r.value["cpu"].Str?
    ensures Contains(cpu, "Kryo") ==>
              r == Ok(map["cpu" := Str(TaggedVersion(cpu, "Kryo").value)])
    ensures !Contains(cpu, "Kryo") && Contains(cpu, "Krait") ==>
              r == Ok(map["cpu" := Str(TaggedVersion(cpu, "Krait").value)])
    ensures !Contains(cpu, "Kryo") && !Contains(cpu, "Krait") && Contains(cpu, "Atom") ==>
              r == Ok(map["cpu" := Str("Intel Atom")])
    ensures !Contains(cpu, "Kryo") && !Contains(cpu, "Krait") && !Contains(cpu, "Atom") &&
            Contains(cpu, "Denver") ==>
              r == Ok(map["cpu" := Str("Denver")])
    ensures !Contains(cpu, "Kryo") && !Contains(cpu, "Krait") && !Contains(cpu, "Atom") &&
            !Contains(cpu, "Denver") && Contains(cpu, "Cortex") && |CortexCores(cpu)| == 1 ==>
              r == Ok(map["cpu" := Str(JoinUnpacked(CortexNames(cpu)).value)])
    ensures !Contains(cpu, "Kryo") && !Contains(cpu, "Krait") && !Contains(cpu, "Atom") &&
            !Contains(cpu, "Denver") && !Contains(cpu, "Cortex") ==>
              r == Ok(map[])
    ensures r.Err? <==>
              !Contains(cpu, "Kryo") && !Contains(cpu, "Krait") && !Contains(cpu, "Atom") &&
              !Contains(cpu, "Denver") && Contains(cpu, "Cortex") && |CortexCores(cpu)| != 1
    ensures r.Err? ==> r.fault == TypeError
  {
    if TaggedVersion(cpu, "Kryo").Some? then Ok(map["cpu" := Str(TaggedVersion(cpu, "Kryo").value)])
    else if TaggedVersion(cpu, "Krait").Some? then Ok(map["cpu" := Str(TaggedVersion(cpu, "Krait").value)])
    else if Contains(cpu, "Atom") then Ok(map["cpu" := Str("Intel Atom")])
    else if Contains(cpu, "Denver") then Ok(map["cpu" := Str("Denver")])
    else if Contains(cpu, "Cortex") then
      match JoinUnpacked(CortexNames(cpu))
      case Err(e) => Err(e)
      case Ok(joined) => Ok(map["cpu" := Str(joined)])
    else Ok(map[])
  }

  /** `parse_cpu_model`: nothing when the processor field cannot be read,
      otherwise the rules of `CpuModelOf` on its first fragment. */
  function ParseCpuModel(t: TextTable): (r: Result<Partial>)
    ensures FirstOf(t, "cpu").Err? ==> r == Ok(map[])
    ensures FirstOf(t, "cpu").Ok? ==> r == CpuModelOf(FirstOf(t, "cpu").value)
    ensures r.Ok? ==> r.value.Keys <= {"cpu"}
    ensures r.Err? ==> r.fault == TypeError
  {
    match FirstOf(t, "cpu")
    case Err(_) => Ok(map[])
    case Ok(cpu) => CpuModelOf(cpu)
  }

  /** `"Cortex-A7"` holds one Cortex match, itself, which has no space to
      replace. */
  lemma OneCortexCore()
    ensures Contains("Cortex-A7", "Cortex") && CortexNames("Cortex-A7") == ["Cortex-A7"]
  {
    var cpu := "Cortex-A7";
    assert OccursAt(cpu, "Cortex", 0);
    ContainsIff(cpu, "Cortex", 0);
    assert DigitEnd(cpu, 9) == 9;
    assert DigitEnd(cpu, 8) == 9;
    assert cpu[6] == '-' && cpu[7] == 'A' && cpu[0..9] == cpu;
    assert CortexAt(cpu, 0) == Some(Found(cpu, 9));
    assert CortexAt(cpu, 9).None?;
    assert CortexCores(cpu) == [cpu];
    assert Dashed(cpu) == cpu;
  }

  /** Unpacking a three-character name joins its characters. */
  lemma JoinUnpackedExample()
    ensures JoinUnpacked(["A53"]) == Ok("A & 5 & 3")
  {
    assert Characters("A53") == ["A", "5", "3"];
    assert ["A", "5", "3"][1..] == ["5", "3"];
    assert ["5", "3"][1..] == ["3"];
    assert Join(AMP, ["3"]) == "3";
    assert Join(AMP, ["5", "3"]) == "5 & 3";
    assert Join(AMP, ["A", "5", "3"]) == "A & 5 & 3";
    assert JoinUnpacked(["A53"]).value == Join(AMP, Characters("A53"));
  }

  /** A field that is its own single Cortex match, with no earlier rule's
      word, is reported through the Cortex rule. */
  lemma OnlyCortexRule(cpu: string)
    requires !Contains(cpu, "Kryo") && !Contains(cpu, "Krait") && !Contains(cpu, "Atom")
    requires !Contains(cpu, "Denver") && Contains(cpu, "Cortex") && CortexNames(cpu) == [cpu]
    ensures CpuModelOf(cpu) == Ok(map["cpu" := Str(JoinUnpacked([cpu]).value)])
  {
  }

  /** None of the earlier rules' words occurs in `"Cortex-A7"`: each has a
      character the field lacks. */
  lemma EarlierWordAbsent(w: string)
    requires w == "Kryo" || w == "Krait" || w == "Atom" || w == "Denver"
    ensures !Contains("Cortex-A7", w)
  {
    if w == "Atom" {
      AbsentWord("Cortex-A7", w, 3);
    } else {
      AbsentWord("Cortex-A7", w, 0);
    }
  }

  /** The rules applied to `"Cortex-A7"`: no earlier rule's word occurs,
      and the Cortex rule finds one core name. */
  lemma CortexRuleExample()
    ensures CpuModelOf("Cortex-A7") == Ok(map["cpu" := Str(JoinUnpacked(["Cortex-A7"]).value)])
  {
    var cpu := "Cortex-A7";
    OneCortexCore();
    EarlierWordAbsent("Kryo");
    EarlierWordAbsent("Krait");
    EarlierWordAbsent("Atom");
    EarlierWordAbsent("Denver");
    OnlyCortexRule(cpu);
  }

  /** The characters of `"Cortex-A7"` joined: 33 characters, starting
      `"C & o"` and ending `"A & 7"`. */
  lemma CortexJoinedText()
    ensures var j := JoinUnpacked(["Cortex-A7"]).value;
            |j| == 33 && j[..5] == "C & o" && j[28..] == "A & 7"
  {
    var x := "Cortex-A7";
    var j := JoinUnpacked([x]).value;
    assert x[0] == 'C' && x[1] == 'o' && x[7] == 'A' && x[8] == '7';
    assert j[0] == 'C' && j[4] == 'o' && j[28] == 'A' && j[32] == '7';
    assert j[1] == ' ' && j[2] == '&' && j[3] == ' ';
    assert j[29] == ' ' && j[30] == '&' && j[31] == ' ';
  }

  /** A processor field naming one Cortex core and no earlier rule's word
      reports that core's name with `" & "` between its characters. */
  lemma SingleCortexExample()
    ensures var r := ParseCpuModel(map["cpu" := ["Cortex-A7"]]);
            && r == Ok(map["cpu" := Str(JoinUnpacked(["Cortex-A7"]).value)])
            && |r.value["cpu"].s| == 33
            && r.value["cpu"].s[..5] == "C & o" && r.value["cpu"].s[28..] == "A & 7"
  {
    CortexRuleExample();
    CortexJoinedText();
    assert FirstOf(map["cpu" := ["Cortex-A7"]], "cpu") == Ok("Cortex-A7");
  }

  /** `parse_gpu`: the first `Adreno <n>` token of the first `gpu`
      fragment. The test that should fall through to the Mali rule compares
      a list with `None` and always holds, so without an Adreno token the
      `[0]` fails and nothing is reported. */
  function ParseGpu(t: TextTable): (r: Partial)
    ensures r.Keys <= {"gpu"}
    ensures r != map[] <==> FirstOf(t, "gpu").Ok? && Contains(FirstOf(t, "gpu").value, "Adreno ")
    ensures r != map[] ==> (r.Keys == {"gpu"} && r["gpu"].Str? &&
              |r["gpu"].s| >= 7 && r["gpu"].s[..7] == "Adreno " && AllDigits(r["gpu"].s[7..]))
  {
    match FirstOf(t, "gpu")
    case Err(_) => map[]
    case Ok(gpu) =>
      match AdrenoModel(gpu)
      case None => map[]
      case Some(model) =>
        var r := map["gpu" := Str(model)];
        assert "gpu" in r;
        r
  }
}
