/** `parse_internalmem`: the storage and RAM sizes of the memory
    configurations a device is sold in. */
module MemoryExtraction {
  import opened Base
  import opened Strings
  import opened Table
  import opened Patterns

  /** `xs.count(xs[0]) == len(xs)`: every value equals the first. */
  predicate AllSame(xs: seq<string>)
  {
    forall k :: 0 <= k < |xs| ==> xs[k] == xs[0]
  }

  function Storages(configs: seq<MemConfig>): (r: seq<string>)
    ensures |r| == |configs| && forall k :: 0 <= k < |r| ==> r[k] == configs[k].storage
  {
    seq(|configs|, k requires 0 <= k < |configs| => configs[k].storage)
  }

  function Rams(configs: seq<MemConfig>): (r: seq<string>)
    ensures |r| == |configs| && forall k :: 0 <= k < |r| ==> r[k] == configs[k].ram
  {
    seq(|configs|, k requires 0 <= k < |configs| => configs[k].ram)
  }

  /** What `parse_internalmem` reports. Reading `ram[0]` with no
      configuration found fails, so that case gives nothing. As written,
      equal storage sizes replace the RAM list, not the storage list, with
      the first storage size; the storage list is never collapsed. */
  function InternalMemory(t: TextTable): (r: Partial)
    ensures r == map[] <==> FirstOf(t, "internalmemory").Err? || MemConfigs(FirstOf(t, "internalmemory").value) == []
    ensures r != map[] ==>
              var configs := MemConfigs(FirstOf(t, "internalmemory").value);
              && r.Keys == {"ram", "storage"}
              && r["storage"] == Str(Join("/", Storages(configs)) + " GB")
              && (AllSame(Storages(configs)) ==> r["ram"] == Str(configs[0].storage + " GB"))
              && (!AllSame(Storages(configs)) && AllSame(Rams(configs)) ==> r["ram"] == Str(configs[0].ram + " GB"))
              && (!AllSame(Storages(configs)) && !AllSame(Rams(configs)) ==> r["ram"] == Str(Join("/", Rams(configs)) + " GB"))
  {
    match FirstOf(t, "internalmemory")
    case Err(_) => map[]
    case Ok(memory) =>
      var configs := MemConfigs(memory);
      if configs == [] then map[]
      else
        var r := Report(Storages(configs), Rams(configs));
        assert "ram" in r;
        r
  }

  /** The collapse steps and the two joined values, from the collected lists. */
  function Report(storage: seq<string>, ram: seq<string>): Partial
    requires storage != [] && ram != []
  {
    var ram := if AllSame(ram) then [ram[0]] else ram;
    var ram := if AllSame(storage) then [storage[0]] else ram;
    map["ram" := Str(Join("/", ram) + " GB"), "storage" := Str(Join("/", storage) + " GB")]
  }

  /** One more configuration appends its sizes to both lists. */
  lemma AppendConfig(configs: seq<MemConfig>, i: nat)
    requires i < |configs|
    ensures Storages(configs[..i + 1]) == Storages(configs[..i]) + [configs[i].storage]
    ensures Rams(configs[..i + 1]) == Rams(configs[..i]) + [configs[i].ram]
  {
  }

  /** `parse_internalmem`: collects the pairs in a loop, then collapses. */
  method ParseInternalMemory(t: TextTable) returns (part: Partial)
    ensures part == InternalMemory(t)
  {
    if "internalmemory" !in t || t["internalmemory"] == [] {
      return map[];
    }
    var configs := MemConfigs(t["internalmemory"][0]);
    if configs == [] {
      return map[];
    }
    var ram: seq<string> := [];
    var storage: seq<string> := [];
    var i := 0;
    while i < |configs|
      invariant 0 <= i <= |configs|
      invariant storage == Storages(configs[..i]) && ram == Rams(configs[..i])
    {
      AppendConfig(configs, i);
      storage := storage + [configs[i].storage];
      ram := ram + [configs[i].ram];
      i := i + 1;
    }
    assert configs[..i] == configs;
    assert storage == Storages(configs) && ram == Rams(configs);
    ghost var collected := Report(storage, ram);
    if AllSame(ram) {
      ram := [ram[0]];
    }
    if AllSame(storage) {
      ram := [storage[0]];
    }
    part := map["ram" := Str(Join("/", ram) + " GB"), "storage" := Str(Join("/", storage) + " GB")];
    assert part == collected;
  }

  /** With a single configuration both sizes are reported, and the RAM
      size shown is the storage size. */
  lemma SingleConfiguration(t: TextTable)
    requires FirstOf(t, "internalmemory").Ok?
    requires |MemConfigs(FirstOf(t, "internalmemory").value)| == 1
    ensures var c := MemConfigs(FirstOf(t, "internalmemory").value)[0];
            InternalMemory(t) == map["ram" := Str(c.storage + " GB"), "storage" := Str(c.storage + " GB")]
  {
    var configs := MemConfigs(FirstOf(t, "internalmemory").value);
    var c := configs[0];
    assert Storages(configs) == [c.storage] && Rams(configs) == [c.ram];
    ReportOne(c.storage, c.ram);
  }

  /** One collected pair reports its storage size twice. */
  lemma ReportOne(storage: string, ram: string)
    ensures Report([storage], [ram]) == map["ram" := Str(storage + " GB"), "storage" := Str(storage + " GB")]
  {
    assert AllSame([storage]) && Join("/", [storage]) == storage;
  }
}
