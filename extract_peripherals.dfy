/** `parse_peripherals`: which catalog peripherals the device page mentions. */
module PeripheralExtraction {
  import opened Base
  import opened Strings
  import opened Table
  import opened Peripherals

  /** The fragment mentions the entry's token, ignoring case. */
  predicate Mentions(p: Peripheral, fragment: string)
  {
    Contains(Lower(fragment), Lower(GsmName(p)))
  }

  /** The entry's name once for every fragment, in order, that mentions it. */
  function Hits(p: Peripheral, fragments: seq<string>): seq<string>
    decreases |fragments|
  {
    if fragments == [] then []
    else
      var last := fragments[|fragments| - 1];
      Hits(p, fragments[..|fragments| - 1]) + (if Mentions(p, last) then [p.wikiSpecName] else [])
  }

  /** How many fragments mention the entry. */
  function MentionCount(p: Peripheral, fragments: seq<string>): nat
    decreases |fragments|
  {
    if fragments == [] then 0
    else
      var last := fragments[|fragments| - 1];
      MentionCount(p, fragments[..|fragments| - 1]) + (if Mentions(p, last) then 1 else 0)
  }

  /** The entry's hits in its own field; nothing when the field is absent. */
  function FieldHits(t: TextTable, p: Peripheral): seq<string>
  {
    if p.gsmField in t then Hits(p, t[p.gsmField]) else []
  }

  /** The names reported for a catalog: each entry's hits, in catalog order. */
  function PeripheralNames(t: TextTable, catalog: seq<Peripheral>): seq<string>
    decreases |catalog|
  {
    if catalog == [] then []
    else PeripheralNames(t, catalog[..|catalog| - 1]) + FieldHits(t, catalog[|catalog| - 1])
  }

  /** `parse_peripherals` over the peripheral catalog. */
  method ParsePeripherals(t: TextTable) returns (part: Partial)
    ensures part == map["peripherals" := StrList(PeripheralNames(t, PERIPHERALS))]
  {
    var out := CollectNames(t, PERIPHERALS);
    part := map["peripherals" := StrList(out)];
  }

  /** The loop of `parse_peripherals` over a catalog and each entry's fragments. */
  method CollectNames(t: TextTable, catalog: seq<Peripheral>) returns (out: seq<string>)
    ensures out == PeripheralNames(t, catalog)
  {
    out := [];
    var i := 0;
    while i < |catalog|
      invariant 0 <= i <= |catalog|
      invariant out == PeripheralNames(t, catalog[..i])
    {
      var p := catalog[i];
      NamesStep(t, catalog, i);
      if p.gsmField in t {
        var hits := EntryHits(p, t[p.gsmField]);
        out := out + hits;
      }
      i := i + 1;
    }
    assert catalog[..i] == catalog;
  }

  /** The inner loop of `parse_peripherals`: the entry's name once per
      fragment that mentions its token. */
  method EntryHits(p: Peripheral, entries: seq<string>) returns (hits: seq<string>)
    ensures hits == Hits(p, entries)
  {
    hits := [];
    var j := 0;
    while j < |entries|
      invariant 0 <= j <= |entries|
      invariant hits == Hits(p, entries[..j])
    {
      HitsStep(p, entries, j);
      if Contains(Lower(entries[j]), Lower(GsmName(p))) {
        hits := hits + [p.wikiSpecName];
      }
      j := j + 1;
    }
    assert entries[..j] == entries;
  }

  /** One more catalog entry appends its field hits. */
  lemma NamesStep(t: TextTable, catalog: seq<Peripheral>, i: nat)
    requires i < |catalog|
    ensures PeripheralNames(t, catalog[..i + 1]) == PeripheralNames(t, catalog[..i]) + FieldHits(t, catalog[i])
  {
    assert catalog[..i + 1][..i] == catalog[..i];
  }

  /** One more fragment appends the entry's name when it mentions the token. */
  lemma HitsStep(p: Peripheral, fragments: seq<string>, j: nat)
    requires j < |fragments|
    ensures Hits(p, fragments[..j + 1]) ==
            Hits(p, fragments[..j]) + (if Mentions(p, fragments[j]) then [p.wikiSpecName] else [])
  {
    assert fragments[..j + 1][..j] == fragments[..j];
  }

  /** An entry's hits are its name, once per mentioning fragment. */
  lemma {:induction false} HitsAreMentions(p: Peripheral, fragments: seq<string>)
    ensures |Hits(p, fragments)| == MentionCount(p, fragments)
    ensures forall k :: 0 <= k < |Hits(p, fragments)| ==> Hits(p, fragments)[k] == p.wikiSpecName
    decreases |fragments|
  {
    if fragments != [] {
      HitsAreMentions(p, fragments[..|fragments| - 1]);
    }
  }

  /** With distinct names, the number of copies of an entry's name in the
      output is the number of fragments of its field that mention it; an
      absent field contributes none. */
  lemma {:induction false} NameCount(t: TextTable, catalog: seq<Peripheral>, k: nat)
    requires DistinctNames(catalog) && k < |catalog|
    ensures multiset(PeripheralNames(t, catalog))[catalog[k].wikiSpecName] ==
            if catalog[k].gsmField in t then MentionCount(catalog[k], t[catalog[k].gsmField]) else 0
    decreases |catalog|, 1
  {
    if k < |catalog| - 1 {
      NameCountFront(t, catalog, k);
    } else {
      NameCountLast(t, catalog);
    }
  }

  /** `NameCount` for an entry before the last: the last entry's hits are
      another name. */
  lemma {:induction false} NameCountFront(t: TextTable, catalog: seq<Peripheral>, k: nat)
    requires DistinctNames(catalog) && k < |catalog| - 1
    ensures multiset(PeripheralNames(t, catalog))[catalog[k].wikiSpecName] ==
            if catalog[k].gsmField in t then MentionCount(catalog[k], t[catalog[k].gsmField]) else 0
    decreases |catalog|, 0
  {
    var n := |catalog| - 1;
    var front := catalog[..n];
    var x := catalog[k].wikiSpecName;
    var hits := FieldHits(t, catalog[n]);
    assert PeripheralNames(t, catalog) == PeripheralNames(t, front) + hits;
    CountSplit(PeripheralNames(t, front), hits, x);
    FieldHitsShape(t, catalog[n]);
    NameCount(t, front, k);
    assert front[k] == catalog[k];
    assert x !in hits;
  }

  /** `NameCount` for the last entry: no earlier entry reports its name. */
  lemma NameCountLast(t: TextTable, catalog: seq<Peripheral>)
    requires DistinctNames(catalog) && catalog != []
    ensures var p := catalog[|catalog| - 1];
            multiset(PeripheralNames(t, catalog))[p.wikiSpecName] ==
            if p.gsmField in t then MentionCount(p, t[p.gsmField]) else 0
  {
    var n := |catalog| - 1;
    var front := catalog[..n];
    var x := catalog[n].wikiSpecName;
    var hits := FieldHits(t, catalog[n]);
    assert PeripheralNames(t, catalog) == PeripheralNames(t, front) + hits;
    CountSplit(PeripheralNames(t, front), hits, x);
    FieldHitsShape(t, catalog[n]);
    NameAbsent(t, front, x);
    SameEverywhere(hits, x);
  }

  /** An entry's field hits are its own name, once per mentioning fragment. */
  lemma FieldHitsShape(t: TextTable, p: Peripheral)
    ensures |FieldHits(t, p)| == if p.gsmField in t then MentionCount(p, t[p.gsmField]) else 0
    ensures forall h :: 0 <= h < |FieldHits(t, p)| ==> FieldHits(t, p)[h] == p.wikiSpecName
  {
    if p.gsmField in t {
      HitsAreMentions(p, t[p.gsmField]);
    }
  }

  /** Copies of `x` in a concatenation are the copies in each part. */
  lemma CountSplit(a: seq<string>, b: seq<string>, x: string)
    ensures multiset(a + b)[x] == multiset(a)[x] + multiset(b)[x]
  {
  }

  /** A name not in the catalog is never reported. */
  lemma {:induction false} NameAbsent(t: TextTable, catalog: seq<Peripheral>, x: string)
    requires forall i :: 0 <= i < |catalog| ==> catalog[i].wikiSpecName != x
    ensures x !in PeripheralNames(t, catalog)
    decreases |catalog|
  {
    if catalog != [] {
      var n := |catalog| - 1;
      NameAbsent(t, catalog[..n], x);
      if catalog[n].gsmField in t {
        HitsAreMentions(catalog[n], t[catalog[n].gsmField]);
      }
    }
  }

  /** A sequence holding only `y` has `|s|` copies of `y`. */
  lemma SameEverywhere(s: seq<string>, y: string)
    requires forall h :: 0 <= h < |s| ==> s[h] == y
    ensures multiset(s)[y] == |s|
  {
    if s != [] {
      SameEverywhere(s[1..], y);
      assert s == [s[0]] + s[1..];
    }
  }

  /** Names appear in catalog order: a name reported before another belongs
      to an entry no later in the catalog. */
  lemma {:induction false} CatalogOrder(t: TextTable, catalog: seq<Peripheral>, i: nat, j: nat, a: nat, b: nat)
    requires DistinctNames(catalog)
    requires i < j < |PeripheralNames(t, catalog)| && a < |catalog| && b < |catalog|
    requires PeripheralNames(t, catalog)[i] == catalog[a].wikiSpecName
    requires PeripheralNames(t, catalog)[j] == catalog[b].wikiSpecName
    ensures a <= b
    decreases |catalog|
  {
    var n := |catalog| - 1;
    var front := catalog[..n];
    var before := PeripheralNames(t, front);
    var hits := FieldHits(t, catalog[n]);
    assert PeripheralNames(t, catalog) == before + hits;
    if catalog[n].gsmField in t {
      HitsAreMentions(catalog[n], t[catalog[n].gsmField]);
    }
    if j < |before| {
      assert before[i] == catalog[a].wikiSpecName && before[j] == catalog[b].wikiSpecName;
      if a == n {
        NameAbsent(t, front, catalog[n].wikiSpecName);
        assert false;
      }
      if b == n {
        NameAbsent(t, front, catalog[n].wikiSpecName);
        assert false;
      }
      CatalogOrder(t, front, i, j, a, b);
    } else {
      assert hits[j - |before|] == catalog[n].wikiSpecName;
    }
  }

  /** A fragment that mentions "MHL 2" also mentions "MHL", so the catalog
      never reports MHL 2 more often than MHL. */
  lemma MhlTwoImpliesMhl(t: TextTable)
    ensures multiset(PeripheralNames(t, PERIPHERALS))["MHL 2"] <= multiset(PeripheralNames(t, PERIPHERALS))["MHL"]
  {
    CatalogShape();
    CatalogTokens();
    NameCount(t, PERIPHERALS, 15);
    NameCount(t, PERIPHERALS, 16);
    if "usb" in t {
      MentionsMonotone(PERIPHERALS[16], PERIPHERALS[15], t["usb"]);
    }
  }

  /** Where every mention of `big` is a mention of `small`, `small` is
      mentioned at least as often. */
  lemma {:induction false} MentionsMonotone(big: Peripheral, small: Peripheral, fragments: seq<string>)
    requires GsmName(big) == "mhl 2" && GsmName(small) == "mhl"
    ensures MentionCount(big, fragments) <= MentionCount(small, fragments)
    decreases |fragments|
  {
    if fragments != [] {
      var last := fragments[|fragments| - 1];
      MentionsMonotone(big, small, fragments[..|fragments| - 1]);
      if Mentions(big, last) {
        assert Lower("mhl 2") == "mhl 2" && Lower("mhl") == "mhl";
        ContainsPrefixOf(Lower(last), "mhl 2", "mhl");
      }
    }
  }
}
