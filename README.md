# gsmarena_to_wiki field extraction, in Dafny

This project models the core of `gsmarena_to_wiki`, a script that turns a
GSMArena device page into a LineageOS wiki device document. The script scrapes
the page's spec table into a map from field code (`cpu`, `bluetooth`,
`cam1modules`, ...) to the list of fragments found under that code. Independent
extractors turn those fragments into partial documents. `main()` then starts
from the schema's required keys, all set to `"REQUIRED, BUT UNKNOWN"`, with
sentinel sub-maps for `battery` and `bluetooth`, and folds the partial
documents into it in a fixed order.

Modules:

- `Base`, `Table`: the raw field table, its text-only view, the document's
  values, and `table[code][0]` with its `KeyError` and `IndexError`.
- `Strings`, `Scan`, `Patterns`: the parts of Python the extractors rely on.
  These are `in`, `lower`, `join` and `split`, `re.findall`'s left-to-right
  scan, and one matcher per regular expression that follows the engine's
  backtracking order.
- `Peripherals`: the peripheral catalog (`peripherals.py`).
- `PeripheralExtraction`, `BatteryExtraction`, `BluetoothExtraction`,
  `ProcessorExtraction`, `IdentityExtraction`, `MemoryExtraction`,
  `CameraExtraction`, `DisplayExtraction`, `NetworkExtraction`: one module
  per group of extractors in `main.py`.
- `Assembly`: the update sequence of `main()`, including a `SpecSheet` class
  whose `entries` field is the dictionary `specs` that `main()` updates in
  place.

Each extractor is a function that says what it reports. Where the source
works step by step (a loop appending to a list, a dictionary filled key by
key), a method does the same steps and is proved equal to that function.

An exception that escapes an extractor is modelled as `Err(fault)`, with
`fault` one of `KeyError`, `IndexError`, `TypeError`, `ValueError`,
`AttributeError` and `StopIteration`. An exception that the extractor catches
becomes an empty contribution, as in the source.

### Where the code does not do what it evidently intends

The model follows the code as written. In these places the code itself shows
a different intent:

- Every extractor wraps its lookups in `try ... except (IndexError,
  KeyError)` and then returns an empty part, so a missing or malformed field
  is evidently meant to be skipped. Seven extractors can still raise an
  exception that ends `main()` before anything is printed. The run reports
  the first of them in call order (`Assembly.Assembled`,
  `Assembly.FirstFaultIsFirst`):
  - `parse_release_date` (main.py:24) runs first. When no date is found,
    `search_dates` returns `None`, and indexing it raises `TypeError`.
  - `parse_bluetooth_profile` reads its field outside its `try`
    (main.py:75), so a page without that field raises `KeyError`
    (`Assembly.EmptyPageFails`).
  - `parse_cpu_model`'s Cortex rule raises `TypeError` (below).
  - `parse_screen_size` (main.py:176) raises `ValueError` when the first
    `\d*\.\d*` match in its text is a bare `.`, which `float` rejects.
  - `parse_mobile_networks` raises `AttributeError` when its field is not
    inside a table, because `find_parent` then returns `None` (main.py:184).
    It raises `StopIteration` when an optional row comes before any named
    row, because `next` then runs on no keys (main.py:194).
  - `parse_camera` raises `IndexError` or `TypeError` on some markup nodes
    (`CameraExtraction.ModuleText`).
  - `parse_screen_res` raises `IndexError` when its field is present but has
    no fragment (`DisplayExtraction.ResolutionText`).
- The Cortex rule joins with `" & "`, so it is evidently meant to join all
  `Cortex-A..` names. The code calls `' & '.join(*match)`. With exactly one
  name this joins that name's characters (`"C & o & r & ..."`,
  `ProcessorExtraction.SingleCortexExample`). With none or several it raises
  `TypeError`.
- The GPU rule has a Mali pattern in its `elif`, so it is evidently meant to
  fall back to `Mali-..`. The test `is not None` on a list always holds, so
  the Mali branch is unreachable. Without an `Adreno` token the `[0]` fails
  and nothing is reported.
- Internal memory is reproduced as written: uniform storage sizes overwrite
  the RAM list with the first storage size. `parse_internalmem` is not called
  by `main()`, so it is modelled on its own.
- The model-name rule finds the vendor ignoring case (main.py:155) and passes
  `re.IGNORECASE`, so the removal is evidently meant to ignore case too. The
  flag lands in `re.sub`'s `count` argument, so the removal is
  case-sensitive (`IdentityExtraction.CaseSensitiveStrip`). It removes up to
  two occurrences anywhere in the name, each with one following whitespace
  character.
- `main()` seeds `battery` with the sentinel keys `removable` and `capacity`
  (main.py:277-280), evidently to keep them when they are unknown. The
  battery part then replaces `battery` wholesale, so without a battery
  description it becomes an empty map (`Assembly.BatterySentinelsLost`).

## Model

| member | source | states |
|---|---|---|
| Table.FirstOf | main.py:44 | `table[code][0]`: `KeyError` exactly when the code is absent, `IndexError` exactly when its list is empty, otherwise the first fragment |
| Table.TextView | main.py:288-289 | the text view keeps every non-camera code with the same number of fragments, each the text of the raw fragment |
| Strings.Lower | peripherals.py:13 | lower-casing keeps the length and maps each character through the ASCII lower-case mapping |
| Strings.LowerIdempotent | peripherals.py:13 | lower-casing a lower-cased string changes nothing |
| Strings.IndexOf | main.py:34 | the leftmost occurrence at or after `from`, and none when there is no occurrence |
| Strings.ContainsIff | main.py:34 | `sub in s` holds whenever `sub` occurs at some index, and then it occurs at the leftmost index found |
| Strings.ContainsPrefixOf | peripherals.py:32-33 | a string containing `big` contains every prefix of `big` |
| Strings.Split | main.py:169 | `split` yields at least one piece and no piece contains the separator |
| Strings.JoinSplit | main.py:169 | joining the pieces of a split with the separator gives back the original string |
| Strings.Decimal | main.py:94 | `str(n)` is a non-empty string of digits whose value is `n`, not starting with `0` from 10 up |
| Scan.Leftmost | main.py:55 | `findall(...)[0]` is the match at the first start position where the pattern matches, with no match before it |
| Scan.FindAllHead | main.py:102 | `findall` is empty exactly when no position matches; otherwise its first element is the leftmost match |
| Scan.FindAllNone | main.py:248 | `findall` is falsy exactly when the pattern matches at no position |
| Scan.FindAllKeeps | main.py:102 | every element `findall` reports has any property that every single match has |
| Scan.FindAllAt | main.py:142 | a match at the scan position is reported first, and the scan resumes at its end |
| Scan.FindAllSkips | main.py:142 | start positions where nothing matches are skipped without changing what is reported |
| Scan.FindAllFirstTwo | main.py:142 | two matches with nothing matching between them are the first two elements `findall` reports |
| Patterns.CpuFreqs | main.py:102 | each frequency group found is a digit count and a `\d*\.\d*` clock |
| Patterns.TaggedVersion | main.py:112-115 | a `Kryo`/`Krait` match exists exactly when the tag occurs; it is the text at the tag's first occurrence: the tag, the following space if there is one, and every digit after it |
| Patterns.CortexCores | main.py:121 | every Cortex match starts with `Cortex`, has `A` as its eighth character, and is at least eight characters long |
| Patterns.AdrenoModel | main.py:130-131 | an Adreno match exists exactly when `Adreno ` occurs; it is the text at the first occurrence: `Adreno ` and every digit that follows it |
| Patterns.Triples | main.py:142 | every triple found consists of three `\d*\.?\d*` numbers |
| Patterns.TripleAtText | main.py:142 | three written numbers joined by ` x `, followed by a character that cannot continue a number, are matched exactly, from the first number to the last |
| Patterns.Megapixels | main.py:227 | a resolution found starts with a digit, ends in ` MP` and occurs in the text |
| Patterns.MegapixelsLeftmost | main.py:227 | a resolution is found exactly when some position matches, and it is the match at the first such position |
| Patterns.PixelDensity | main.py:237 | a density found is digits with an optional leading `~` |
| Patterns.PixelDensityLeftmost | main.py:237 | a density is found exactly when some position matches, and it is the match at the first such position |
| Patterns.ScreenPixels | main.py:239 | a resolution found has non-empty digit runs as width and height |
| Patterns.ScreenPixelsLeftmost | main.py:239 | a resolution is found exactly when some position matches, and it is the match at the first such position |
| Patterns.MemConfigs | main.py:248 | every pair found is two non-empty digit runs; none is found exactly when no position matches |
| Patterns.VersionAt | main.py:55 | a version match sits between word boundaries and has the shape digits, optional `.`, digits, optional letter |
| Patterns.VersionToken | main.py:55 | the version token is the match at the first position where one matches, and none exists exactly when no position matches; it starts with a digit and occurs in the field |
| Peripherals.GsmName | peripherals.py:8-13 | an entry's token is the given one, or else the lower-cased wiki name (itself already lower-case) |
| Peripherals.CatalogShape | peripherals.py:16-36 | the catalog has 19 entries with distinct wiki names, each reading one of the fields gps, sensors, radio, usb, nfc |
| Peripherals.CatalogNamesDistinct | peripherals.py:16-36 | no two catalog entries share a wiki name |
| Peripherals.CatalogTokens | peripherals.py:16-36 | explicit tokens (`BDS`, `Yes`, `Gyro`) are kept as given; defaults are lower-cased names (`a-gps`, `mhl`, `mhl 2`) |
| PeripheralExtraction.ParsePeripherals | main.py:29-38 | the nested loop reports, in catalog order, each entry's name once per fragment of its field that mentions its token |
| PeripheralExtraction.CollectNames | main.py:30-36 | the outer loop over the catalog, skipping entries whose field is absent, yields the names of `PeripheralNames` |
| PeripheralExtraction.EntryHits | main.py:33-35 | the inner loop over one field's fragments appends the entry's name once per fragment that mentions its token |
| PeripheralExtraction.HitsAreMentions | main.py:33-35 | an entry contributes only its own name, as many times as its field's fragments mention it |
| PeripheralExtraction.NameCount | main.py:29-38 | with distinct names, each name occurs in the output as often as its field's fragments mention its token, and never when the field is absent |
| PeripheralExtraction.NameAbsent | main.py:29-38 | a name that no catalog entry has is never reported |
| PeripheralExtraction.CatalogOrder | main.py:31-35 | reported names follow catalog order: an earlier name belongs to an entry no later in the catalog |
| PeripheralExtraction.MentionsMonotone | main.py:34 | every fragment mentioning `mhl 2` mentions `mhl`, so `mhl` is mentioned at least as often |
| PeripheralExtraction.MhlTwoImpliesMhl | peripherals.py:32-33 | the output never lists `MHL 2` more often than `MHL` |
| BatteryExtraction.BatteryInfo | main.py:41-50 | `battery` is always reported as a sub-map; `removable: false` exactly when the description says non-removable; capacity and tech each need every earlier lookup to succeed |
| BatteryExtraction.ParseBattery | main.py:41-50 | filling `out` key by key until a lookup fails yields `BatteryInfo` |
| BluetoothExtraction.MainVersion | main.py:56-57 | the main version is `5` exactly for the tokens `5.0` and `5`; any other token is kept |
| BluetoothExtraction.KeptExtras | main.py:61-69 | an additional token is kept exactly when the schema lists it, the field mentions it, and it is not `LE` next to a version other than `4.0` |
| BluetoothExtraction.BluetoothSpec | main.py:53-70 | `spec` is reported exactly when the field has a version token |
| BluetoothExtraction.ParseBluetoothSpec | main.py:53-70 | the loop appending additional tokens yields `BluetoothSpec` |
| BluetoothExtraction.AppendKept | main.py:58-67 | the loop starting from `[main]` appends exactly the kept additional tokens, in schema order |
| BluetoothExtraction.KeptStep | main.py:62-67 | one more additional token is appended exactly when the field mentions it and it is not `LE` next to a version other than `4.0` |
| BluetoothExtraction.LeOnlyWithFourZero | main.py:65 | `LE` is reported only with main version `4.0` and only when mentioned; the main version is never `5.0` |
| BluetoothExtraction.LeadingVersion | main.py:55 | a field starting `<digit>.0, ` has that three-character version as its first token |
| BluetoothExtraction.SpecOf | main.py:53-70 | with a known token and kept tokens, `spec` is their `" + "` join |
| BluetoothExtraction.FiveZeroExample | main.py:55-58 | `"5.0, A2DP, LE"` with extra `LE` gives spec `"5"` |
| BluetoothExtraction.FourZeroToken | main.py:55 | the first version token of `"4.0, A2DP, LE"` is `4.0` |
| BluetoothExtraction.KeepsMentionedLe | main.py:63-67 | a field that mentions `LE` keeps it next to version `4.0` |
| BluetoothExtraction.FourZeroKept | main.py:63-67 | `"4.0, A2DP, LE"` keeps `LE` |
| BluetoothExtraction.FourZeroExample | main.py:53-70 | `"4.0, A2DP, LE"` with extra `LE` gives spec `"4.0 + LE"` |
| BluetoothExtraction.BluetoothProfile | main.py:73-87 | fails exactly when the field is missing or empty, with that fault; reports the first of aptX HD, aptX, A2DP found among the comma-separated tokens, nothing when none is |
| ProcessorExtraction.FirstCoresNamed | main.py:92-94 | the first core-count name in declaration order that the field mentions, ignoring case |
| ProcessorExtraction.ParseCpuCores | main.py:90-97 | nothing exactly when the field is unreadable or names no core count; otherwise the count of the first name mentioned |
| ProcessorExtraction.OctaCore | main.py:13-19 | an octa-core processor not also called deca-core reports `"8"` |
| ProcessorExtraction.ParseCpuFreqs | main.py:100-106 | nothing exactly when no frequency group is found; otherwise every group, in order, as `"<n> x <clock> GHz"` joined with `" + "` |
| ProcessorExtraction.Dashed | main.py:121 | `replace(' ', '-')` keeps the length, leaves no space, and replaces exactly the spaces |
| ProcessorExtraction.CortexNames | main.py:121 | one dashed name per Cortex match, in order |
| ProcessorExtraction.Characters | main.py:122 | iterating over a string yields its characters, in order |
| ProcessorExtraction.JoinCharacters | main.py:122 | joining the characters of a string with `" & "` puts character `i` at position `4 * i` and the separator everywhere else |
| ProcessorExtraction.JoinUnpacked | main.py:122 | `join(*match)` succeeds exactly when there is one match, putting that name's characters at every fourth position with `" & "` between them; otherwise it raises `TypeError` |
| ProcessorExtraction.CpuModelOf | main.py:111-125 | Kryo, then Krait, then Atom (`Intel Atom`), then Denver, then the Cortex rule: each decides when its word occurs and no earlier one does; no word gives nothing; the run fails with `TypeError` exactly when only the Cortex rule applies and it does not find exactly one name |
| ProcessorExtraction.ParseCpuModel | main.py:109-125 | a missing or empty field reports nothing; otherwise the rules of `CpuModelOf` apply to the first fragment, and any failure is a `TypeError` |
| ProcessorExtraction.OneCortexCore | main.py:121 | `"Cortex-A7"` holds exactly one Cortex match, itself |
| ProcessorExtraction.JoinUnpackedExample | main.py:122 | unpacking `"A53"` gives `"A & 5 & 3"` |
| ProcessorExtraction.OnlyCortexRule | main.py:111-123 | a field that is its own single Cortex match, with no earlier rule's word, is reported through the Cortex rule |
| ProcessorExtraction.EarlierWordAbsent | main.py:111-119 | none of `Kryo`, `Krait`, `Atom`, `Denver` occurs in `"Cortex-A7"` |
| ProcessorExtraction.CortexRuleExample | main.py:111-123 | the rules applied to `"Cortex-A7"` report the unpacked join of that one name |
| ProcessorExtraction.CortexJoinedText | main.py:122 | the characters of `"Cortex-A7"` joined are 33 characters, from `"C & o"` to `"A & 7"` |
| ProcessorExtraction.SingleCortexExample | main.py:109-125 | a processor field `"Cortex-A7"` reports `cpu` as its characters joined with `" & "`, not the name itself |
| ProcessorExtraction.ParseGpu | main.py:128-136 | `gpu` is reported exactly when the field mentions `Adreno `, and is `Adreno ` plus digits |
| IdentityExtraction.ParseDimensions | main.py:139-148 | height, width and depth are reported together, exactly when two triples are found: millimetres from the first, inches from the second |
| IdentityExtraction.DimensionsTriples | main.py:142 | on `"<mm triple> mm (<inch triple> in)"` the first triple found is the millimetre one and the second the inch one |
| IdentityExtraction.DimensionsOf | main.py:139-148 | such a field reports each axis as `"<mm> mm (<in> in)"` from the matching positions of the two triples |
| IdentityExtraction.DimensionsExample | main.py:139-148 | `"160.2 x 75.1 x 8.2 mm (6.31 x 2.96 x 0.32 in)"` gives height `"160.2 mm (6.31 in)"`, width `"75.1 mm (2.96 in)"` and depth `"8.2 mm (0.32 in)"` |
| IdentityExtraction.ParseModelNumbers | main.py:167-171 | `models` is reported exactly when the field is readable; the numbers contain no `", "` and join back to the field |
| IdentityExtraction.StripVendor | main.py:157 | at most `count` occurrences are removed; the text before the first occurrence is kept; with none present, or a count of 0, nothing changes; otherwise the name gets shorter |
| IdentityExtraction.StripLeadingVendor | main.py:157 | a name made of the vendor, one whitespace character or none, and a rest that does not mention the vendor, becomes exactly that rest |
| IdentityExtraction.VendorKeys | main.py:157-161 | the five keys: `name` is the model name with the vendor stripped, `vendor` the vendor, `vendor_short` its lower-case form, `tree` and `kernel` the `android_device_`/`android_kernel_` names built from it |
| IdentityExtraction.LastVendor | main.py:154-156 | the last vendor in schema order that the model name mentions, ignoring case |
| IdentityExtraction.ModelName | main.py:151-164 | nothing exactly when the field is unreadable or mentions no vendor; otherwise the five `VendorKeys` values of the last vendor mentioned |
| IdentityExtraction.ParseModelName | main.py:151-164 | the loop in which each match overwrites the five keys yields `ModelName` |
| IdentityExtraction.CaseSensitiveStrip | main.py:155-157 | a last vendor found only by ignoring case is reported as `vendor`, and `name` is the model name unchanged |
| MemoryExtraction.InternalMemory | main.py:244-261 | nothing exactly when no configuration is found; storage lists every size; ram is the first storage size when storages are uniform, else the first RAM size when RAM is uniform, else every RAM size |
| MemoryExtraction.ParseInternalMemory | main.py:244-261 | the loop and collapse steps yield `InternalMemory` |
| MemoryExtraction.SingleConfiguration | main.py:252-255 | one configuration reports its storage size as both storage and RAM |
| CameraExtraction.ModuleText | main.py:225-226 | text is read as is; a node with no children raises `IndexError`; a node whose first child is a node raises `TypeError` |
| CameraExtraction.CameraOf | main.py:223-231 | a line break yields no camera; otherwise the fragment fails exactly when its text cannot be read, and yields a camera with empty flash and the first megapixel token whenever there is one |
| CameraExtraction.Cameras | main.py:221-232 | a successful scan reports at most one camera per module fragment |
| CameraExtraction.CamerasFail | main.py:222-227 | the modules fail exactly when one of them fails |
| CameraExtraction.CamerasReported | main.py:227-231 | each camera reported has empty flash and info ending in ` MP` |
| CameraExtraction.CamerasStep | main.py:222-231 | one more module appends its camera, keeps the list, or reports its failure |
| CameraExtraction.FailureSticks | main.py:222-226 | once a prefix of the modules fails, the whole list fails the same way |
| CameraExtraction.CameraPart | main.py:220-232 | on success exactly the key `cameras`, holding the cameras of the main then selfie modules |
| CameraExtraction.ParseCamera | main.py:220-232 | the loop over the modules yields `CameraPart` |
| CameraExtraction.CollectCameras | main.py:221-231 | the loop skipping line breaks and reading nodes through their first child yields `Cameras`, stopping at the first failure |
| CameraExtraction.TextNeverFails | main.py:225-227 | plain-text modules never make the extraction fail |
| CameraExtraction.NoCameraFields | main.py:222 | a page without camera fields reports an empty camera list |
| CameraExtraction.CameraExample | main.py:220-232 | the modules `"\n"` and `"50 MP, f/1.8"` give one camera, with empty flash and info `"50 MP"` |
| DisplayExtraction.ResolutionText | main.py:237 | a missing field reads as empty text; the read fails, with `IndexError`, exactly when the field is present but empty |
| DisplayExtraction.ScreenResolution | main.py:235-241 | `screen_ppi` and `screen_res` are each set exactly when their pattern occurs; the resolution is `"<w>x<h>"` |
| DisplayExtraction.ParseScreenRes | main.py:235-241 | filling `out` one key at a time yields `ScreenResolution` |
| DisplayExtraction.ResolutionShape | main.py:239-240 | the reported resolution is two digit runs around an `x` |
| DisplayExtraction.MissingField | main.py:237-241 | without the field nothing is reported and nothing fails |
| NetworkExtraction.Offered | main.py:201-215 | the labels among the first `n` whose condition holds, strictly in label order |
| NetworkExtraction.Networks | main.py:201-217 | a label is listed exactly when its condition holds; labels are in the fixed order and all from the six generations |
| NetworkExtraction.NoRepeats | main.py:201-215 | no label is listed twice |
| NetworkExtraction.GsmAndLte | main.py:202-213 | a GSM-only 2G list and a non-empty 4G list, with no 3G or 5G, give `["2G GSM", "4G LTE"]` |
| NetworkExtraction.ClassifyNetworks | main.py:201-217 | the sequence of appends yields `Networks` |
| Assembly.Initial | main.py:275-284 | the start document has the required keys at the sentinel, plus the battery and Bluetooth sentinel sub-maps |
| Assembly.MergeBluetooth | main.py:295 | updating `bluetooth` merges the part into its sub-map and leaves every other key alone |
| Assembly.PeripheralsPart | main.py:292 | the peripherals update sets exactly `peripherals` |
| Assembly.NetworkPart | main.py:303 | once the table walk returns, the network update sets `network` to the classified list, or nothing when the walk stopped at a caught exception |
| Assembly.StretchKeys | main.py:291-307 | no update replaces `bluetooth`, and only the first stretch replaces `battery` |
| Assembly.HeadPartKeys | main.py:291-294 | the first stretch's parts stay within its keys |
| Assembly.MiddlePartKeys | main.py:296-301 | the second stretch's parts stay within its keys |
| Assembly.CpuPartKeys | main.py:298 | the CPU model part stays within the second stretch's keys |
| Assembly.TailPartKeys | main.py:303-305 | the third stretch's parts stay within its keys |
| Assembly.NamePartKeys | main.py:307 | the model-name part stays within the third stretch's keys |
| Assembly.FoldHead | main.py:291-294 | `release` is set when the release part has it and otherwise kept; `peripherals` is the peripherals list; `battery` is the battery extractor's sub-map; no other key changes |
| Assembly.FoldMiddle | main.py:295-301 | the profile is merged into `bluetooth`; only the processor, dimension and model-number keys change |
| Assembly.FoldTail | main.py:302-307 | only the screen, network, camera, resolution and model-name keys change |
| Assembly.UpdateWithin | main.py:291-307 | an update whose part stays within a stretch's keys keeps every other key and adds only keys of the stretch |
| Assembly.FirstFaultIsFirst | main.py:291-308 | the exception reported comes from a call before which none raised, and none is reported exactly when no call raises |
| Assembly.FirstFaultAppend | main.py:291-308 | calls run in turn: the first exception of two runs is the first run's, or the second's when the first raises none |
| Assembly.CompletesWithoutFault | main.py:291-305 | a run completes exactly when none of the release date, Bluetooth profile, CPU model, screen size, network walk, camera and screen resolution raises |
| Assembly.Assembled | main.py:275-308 | the run fails exactly when one of the seven extractors that can raise does so; a release-date exception is the one reported; a finished document holds a `bluetooth` sub-map |
| Assembly.Document | main.py:291-308 | once no extractor has raised, the document passed through the three stretches and the final Bluetooth update holds a `bluetooth` sub-map |
| Assembly.EmptyPageFails | main.py:75 | an empty table, on which the release date contributes nothing, ends the run with `KeyError` from the Bluetooth profile |
| Assembly.Stretches | main.py:291-308 | a finished document is the start document passed through the three stretches and the final Bluetooth update |
| Assembly.RequiredKeys | main.py:275-308 | every required key is present; one that no extractor sets keeps the sentinel; no key outside the schema and the extractors appears |
| Assembly.BatteryReplaced | main.py:293-294 | `battery` is exactly the battery extractor's sub-map |
| Assembly.BatterySentinelsLost | main.py:277-294 | without a battery description `battery` is an empty map, losing its sentinels |
| Assembly.BluetoothSubMap | main.py:281-308 | `bluetooth` is the sentinel `spec` updated by the profile and then by the specification |
| Assembly.BluetoothSpecSet | main.py:281-308 | `spec` is always present; it keeps the sentinel exactly when no version token is found |
| Assembly.SpecAfterProfile | main.py:281-308 | a profile update, which never sets `spec`, leaves the sentinel; a specification update replaces it exactly when it is non-empty |
| Assembly.BatteryTwiceIsOnce | main.py:293-294 | the repeated battery update changes nothing |
| Assembly.SpecSheet.constructor | main.py:275-284 | the document starts as `Initial` of the required keys |
| Assembly.SpecSheet.Update | main.py:291 | `specs.update(part)` replaces the part's keys and changes no other |
| Assembly.SpecSheet.UpdateBluetooth | main.py:295 | `specs['bluetooth'].update(part)` is `MergeBluetooth` |
| Assembly.UpdateHead | main.py:291-294 | the first stretch reports the release-date exception before changing anything, or yields `FoldHead` |
| Assembly.UpdateMiddle | main.py:295-301 | the second stretch reports the first exception of the profile and the CPU model, or yields `FoldMiddle` |
| Assembly.UpdateNetwork | main.py:303 | the network update sets the classified list, or changes nothing when the walk stopped early |
| Assembly.UpdateTail | main.py:302-307 | the third stretch reports the first exception of the screen size, the network walk, the cameras and the screen resolution, or yields `FoldTail` |
| Assembly.Assemble | main.py:275-308 | the update sequence yields `Assembled`: the document, or the first exception in call order |

## Left out

- Fetching the page and the schema over HTTP, parsing the HTML, loading the YAML schema and printing the YAML document (main.py:265-273, 310) are I/O. The schema's required keys, vendors and additional Bluetooth tokens are parameters (`Assembly.Schema`).
- Building `raw_specs` from the page's `data-spec` elements (main.py:286-289) is HTML traversal. The model starts from the resulting table.
- `parse_release_date` (main.py:22-26) depends on the `dateparser` library. Its outcome is a parameter (`Assembly.Externals.release`): a part limited to the key `release`, or the exception that escapes it. Which texts make it fail is not modelled.
- `parse_screen_size` (main.py:174-179) uses floating point (`float`, `round`). Its outcome is a parameter (`Assembly.Externals.screenSize`): a part limited to the key `screen`, or the exception that escapes it. Which texts make it fail is not modelled.
- The table walk of `parse_mobile_networks` (main.py:184-199) is HTML traversal. Its outcome is a parameter (`Assembly.Externals.bands`): the band lists, nothing when the walk stopped at a caught exception, or the exception that escapes it. The classification (main.py:201-217) is modelled.
- The additional Bluetooth tokens come from a Python `set`, whose iteration order is unspecified. The model accepts them in any order given.
- Fragments outside the camera fields are assumed to be plain text (`Table.PlainOutsideCameras`). A markup node there would reach `.lower()` or `re.findall` and fail in ways the model does not capture.
- `\d`, `[a-zA-Z]`, `\w` and `str.lower` are modelled on ASCII only. Non-ASCII digits, letters and case mappings are not. `\s` covers every character for which `str.isspace` holds.
- IdentityExtraction.StripVendor: the vendor is matched as a literal string. A vendor name containing regular-expression metacharacters would be read as a pattern by `re.sub`.
- The key order of the output document, which decides the YAML layout, is not modelled: documents are maps.
- Patterns.CpuFreqs, Patterns.Triples, Patterns.CortexCores and Patterns.MemConfigs state the shape of each match, not which matches are found. Which matches are found is fixed by the matcher definitions, which follow the engine's scan.
- Assembly.Assembled: its own contract gives the failure cases and the `bluetooth` sub-map. The full content of a finished document is stated by `Assembly.Stretches` and the lemmas after it.
- IdentityExtraction.ModelName (and `StripVendor`, `VendorKeys`, `ParseModelName`): every vendor name must be non-empty. Python accepts an empty one, which every model name mentions and whose `re.sub` pattern `\s?` also matches the empty string; that case is not modelled.
