/** The classification step of `parse_mobile_networks`: which network
    generations a device supports, from the band lists of its network table
    (already collected per generation code such as `net2g`). */
module NetworkExtraction {
  import opened Strings

  /** Generation code to the band lists found under it. */
  type BandTable = map<string, seq<string>>

  /** The labels, in the order they are reported. */
  const GENERATIONS: seq<string> := ["2G GSM", "2G CDMA", "3G UMTS", "3G CDMA2000", "4G LTE", "5G"]

  /** `any(word in x for x in xs)` */
  predicate AnyContains(xs: seq<string>, word: string)
  {
    exists k :: 0 <= k < |xs| && Contains(xs[k], word)
  }

  /** The condition under which `GENERATIONS[k]` is reported. */
  predicate Offers(bands: BandTable, k: nat)
    requires k < |GENERATIONS|
  {
    match k
    case 0 => "net2g" in bands && AnyContains(bands["net2g"], "GSM")
    case 1 => "net2g" in bands && AnyContains(bands["net2g"], "CDMA")
    case 2 => "net3g" in bands && (AnyContains(bands["net3g"], "HSDPA") || AnyContains(bands["net3g"], "UMTS"))
    case 3 => "net3g" in bands && AnyContains(bands["net3g"], "CDMA")
    case 4 => "net4g" in bands && |bands["net4g"]| > 0
    case _ => "net5g" in bands && |bands["net5g"]| > 0
  }

  /** The labels among the first `n` whose condition holds, in order. */
  function Offered(bands: BandTable, n: nat): (r: seq<string>)
    requires n <= |GENERATIONS|
    ensures forall name :: name in r <==> exists k :: 0 <= k < n && GENERATIONS[k] == name && Offers(bands, k)
    ensures forall i, j :: 0 <= i < j < |r| ==> Rank(r[i]) < Rank(r[j])
    ensures forall i :: 0 <= i < |r| ==> Rank(r[i]) < n
  {
    if n == 0 then []
    else
      var r := Offered(bands, n - 1);
      if Offers(bands, n - 1) then
        assert Rank(GENERATIONS[n - 1]) == n - 1;
        r + [GENERATIONS[n - 1]]
      else r
  }

  /** The position of a label in `GENERATIONS`. */
  function Rank(name: string): (r: nat)
    ensures r < |GENERATIONS| ==> GENERATIONS[r] == name
    ensures name in GENERATIONS ==> r < |GENERATIONS|
  {
    if name == "2G GSM" then 0
    else if name == "2G CDMA" then 1
    else if name == "3G UMTS" then 2
    else if name == "3G CDMA2000" then 3
    else if name == "4G LTE" then 4
    else if name == "5G" then 5
    else 6
  }

  /** The network list: every label whose condition holds, in the fixed
      order, each once. */
  function Networks(bands: BandTable): (r: seq<string>)
    ensures forall name :: name in r <==> exists k :: 0 <= k < |GENERATIONS| && GENERATIONS[k] == name && Offers(bands, k)
    ensures forall i, j :: 0 <= i < j < |r| ==> Rank(r[i]) < Rank(r[j])
    ensures forall i :: 0 <= i < |r| ==> r[i] in GENERATIONS
  {
    Offered(bands, |GENERATIONS|)
  }

  /** The list never repeats a label. */
  lemma NoRepeats(bands: BandTable)
    ensures forall i, j :: 0 <= i < j < |Networks(bands)| ==> Networks(bands)[i] != Networks(bands)[j]
  {
  }

  /** A GSM-only 2G list and a non-empty 4G list, with no 3G or 5G lists,
      give exactly "2G GSM" then "4G LTE". */
  lemma GsmAndLte(bands: BandTable)
    requires "net2g" in bands && AnyContains(bands["net2g"], "GSM") && !AnyContains(bands["net2g"], "CDMA")
    requires "net3g" !in bands && "net5g" !in bands
    requires "net4g" in bands && |bands["net4g"]| > 0
    ensures Networks(bands) == ["2G GSM", "4G LTE"]
  {
    assert Offers(bands, 0) && !Offers(bands, 1) && !Offers(bands, 2) && !Offers(bands, 3);
    assert Offers(bands, 4) && !Offers(bands, 5);
    assert Offered(bands, 1) == ["2G GSM"];
    assert Offered(bands, 2) == ["2G GSM"];
    assert Offered(bands, 3) == ["2G GSM"];
    assert Offered(bands, 4) == ["2G GSM"];
    assert Offered(bands, 5) == ["2G GSM", "4G LTE"];
  }

  /** The classification, appending to `networks` one test at a time. */
  method ClassifyNetworks(bands: BandTable) returns (networks: seq<string>)
    ensures networks == Networks(bands)
  {
    networks := [];
    assert Offers(bands, 0) <==> "net2g" in bands && AnyContains(bands["net2g"], "GSM");
    assert Offers(bands, 1) <==> "net2g" in bands && AnyContains(bands["net2g"], "CDMA");
    assert Offers(bands, 2) <==> "net3g" in bands && (AnyContains(bands["net3g"], "HSDPA") || AnyContains(bands["net3g"], "UMTS"));
    assert Offers(bands, 3) <==> "net3g" in bands && AnyContains(bands["net3g"], "CDMA");
    assert Offers(bands, 4) <==> "net4g" in bands && |bands["net4g"]| > 0;
    assert Offers(bands, 5) <==> "net5g" in bands && |bands["net5g"]| > 0;
    if "net2g" in bands {
      if AnyContains(bands["net2g"], "GSM") {
        networks := networks + ["2G GSM"];
      }
      assert networks == Offered(bands, 1);
      if AnyContains(bands["net2g"], "CDMA") {
        networks := networks + ["2G CDMA"];
      }
    } else {
      assert Offered(bands, 1) == [];
    }
    assert networks == Offered(bands, 2);
    if "net3g" in bands {
      if AnyContains(bands["net3g"], "HSDPA") || AnyContains(bands["net3g"], "UMTS") {
        networks := networks + ["3G UMTS"];
      }
      assert networks == Offered(bands, 3);
      if AnyContains(bands["net3g"], "CDMA") {
        networks := networks + ["3G CDMA2000"];
      }
    }
    assert networks == Offered(bands, 4);
    if "net4g" in bands && |bands["net4g"]| > 0 {
      networks := networks + ["4G LTE"];
    }
    assert networks == Offered(bands, 5);
    if "net5g" in bands && |bands["net5g"]| > 0 {
      networks := networks + ["5G"];
    }
  }
}
