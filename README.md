# POI extraction from OpenStreetMap data, in Dafny

This project models the point-of-interest (POI) extraction of three scripts
that turn OpenStreetMap data into CSV rows of
`name, category, latitude, longitude, description`:

- `geofabrik_to_csv_pbf.py`, the XML/PBF converter. It has:
  - the strict rule table, which gives no category when nothing matches;
  - the labelled description builder;
  - the osmium node handler with its `pois` list and cap;
  - the event loop of `parse_osm_xml`;
  - the file loop of `main`, which gives each file the budget that remains.
- `geofabrik_to_csv.py`, the XML-only converter. It has:
  - the lenient rule table, which falls back to `other`;
  - its own event loop with a different emit rule;
  - the budget loop of `process_geofabrik_data`.
- `poi_downloader.py`, the Overpass downloader: the conversion of a
  tab-separated response, line by line, into records.

Modules, one concern each:

| file | module | what it holds |
|---|---|---|
| `wrappers.dfy` | `Wrappers` | `Option`, used for `None` and for raised exceptions |
| `text.dfy` | `Text` | ASCII models of `lower`, `title`, `strip`, `replace`, `split`, `join` and decimal `float()` |
| `osm.dfy` | `Osm` | tag maps, `tags.get(k, '')`, the `Poi` record, bounds, the cap test, fallback names, XML events |
| `rules.dfy` | `RuleTables` | ordered rule tables as data, with first-match semantics |
| `strict_categorizer.dfy` | `StrictCategorizer` | the strict if/elif chain, and its proof of equality with a rule table |
| `descriptions.dfy` | `Descriptions` | `get_description` / `get_description_xml` |
| `pbf_handler.dfy` | `PbfHandler` | the `POIHandler` class and `parse_osm_pbf` |
| `strict_xml.dfy` | `StrictXml` | `parse_osm_xml` of the XML/PBF converter |
| `strict_converter.dfy` | `StrictConverter` | suffix filter, `.pbf` dispatch and the file loop of `main` |
| `lenient_categorizer.dfy` | `LenientCategorizer` | the lenient if/elif chain, and its proof of equality with a rule table |
| `lenient_converter.dfy` | `LenientConverter` | `parse_osm_xml` and `process_geofabrik_data` of the XML-only converter |
| `overpass_rows.dfy` | `OverpassRows` | the row loop of `download_pois` |

Each imperative piece of the source is a `method` proved equal to a
function that defines its result:

- the handler's `node`;
- both event loops;
- both file loops;
- the Overpass line loop.

The lemmas then prove the promised properties about those functions:

- first-match precedence;
- bounds and range filtering;
- the cap;
- record order;
- loss of all records on an exception.

`POIHandler.categorize_poi` and `categorize_poi_xml` are textually
identical, and so are `get_description` and `get_description_xml`. Each
pair is therefore modelled once (`StrictCategorizer.Categorize`,
`Descriptions.Describe`), and the handler and the XML parser both use that
one definition.

An XML document is modelled as the sequence of events an incremental reader
produces:

- `Start(tag, attrs)`;
- `End(tag)`;
- `Malformed`, the point where the reader raises.

A PBF file is modelled as the nodes the decoder delivers, plus a flag that
says whether decoding then fails. Coordinates are `real`. `float()` is
modelled on plain decimal text, and a parse failure is `None`.

Where the code and its tests disagree, the model follows the code. The
model also shows behaviour that the code has but that its users may not
expect:

- `{'amenity': 'fuel'}` is `transportation` in the strict table. The
  transportation branch (geofabrik_to_csv_pbf.py:206) comes before the
  gas_station branch (geofabrik_to_csv_pbf.py:213). The tests at
  test_geofabrik_pbf_converter.py:85 and :324 expect `gas_station`.
- The file loop of `main` is not monotonic in `--max-pois`. A file whose
  first POI is followed by malformed XML yields that POI under a cap of 1.
  Under a cap of 2 it yields nothing, because the parser reads on and
  raises. See `StrictConverter.LargerBudgetCanLoseRecords`.
- A cap of 0 means "no cap" for the handler and for the loop of `main`,
  because 0 is falsy. Each later file still gets `0 - len(all_pois)`,
  which is negative, and a negative cap is truthy and already reached. So
  after the first file that yields records, each further file adds at
  most one record. See `StrictConverter.ZeroCapStarvesLaterFiles`.
- The XML-only converter's filter keeps `.osm.bz2` and `.osm.pbf` files
  (geofabrik_to_csv.py:26), but `parse_osm_xml` hands the raw path to the
  XML reader (geofabrik_to_csv.py:89). Such a file is not XML: the reader
  raises, the error is caught at geofabrik_to_csv.py:155-160, and the file
  adds no record. See `LenientConverter.UnreadableFileSkipped`.

## Model

| member | source | states |
|---|---|---|
| Text.Lower | geofabrik_to_csv_pbf.py:219 | lower-casing keeps the length, turns each upper-case letter into its lower-case letter (code point + 32) and changes no other character |
| Text.TitleAfter | geofabrik_to_csv_pbf.py:55 | title-casing upper-cases a letter exactly when the character before it is not a letter (or it comes first) and lower-cases it otherwise; the length is kept |
| Text.Strip | geofabrik_to_csv.py:131-135 | stripping leaves no whitespace at either end of the result and keeps only characters of the input |
| Text.StripSlice | geofabrik_to_csv.py:131-135 | the stripped text is a slice of the input with only whitespace before and after it; with Strip's contract this fixes the result |
| Text.StripTrimmed | geofabrik_to_csv.py:131-135 | text without whitespace at either end is unchanged by stripping |
| Text.Replace | poi_downloader.py:121-122 | after replacing a character by text without it, the character no longer occurs; every character left is from the input (not the pattern) or from the replacement |
| Text.ReplaceChar | poi_downloader.py:121-122 | a single character becomes the replacement when it is the pattern and stays otherwise |
| Text.ReplaceAppend | poi_downloader.py:121-122 | replacing text piece by piece gives the same result: characters keep their order |
| Text.ReplaceAbsent | poi_downloader.py:121-122 | text without the pattern is unchanged |
| Text.Split | poi_downloader.py:59 | splitting on a separator gives at least one field and no field contains the separator |
| Text.JoinSplit | poi_downloader.py:59 | the fields of a split, joined with the separator, give the line back: splitting loses nothing |
| Text.ParseDecimal | poi_downloader.py:69-73 | `float()` on plain decimal text, None where it raises; its contract says only that empty text does not parse (see `ParseDigits`, and "## Left out" for the notations not modelled) |
| Text.ParseDigits | poi_downloader.py:70-71 | a non-empty run of decimal digits parses as the whole number it denotes |
| Osm.FallbackName | geofabrik_to_csv_pbf.py:55 | the fallback name is "Unknown " followed by the title-cased category |
| Osm.RecordName | geofabrik_to_csv_pbf.py:55 | defines the record name: the `name` tag when the key is present, otherwise the fallback name; stated by `FallbackName` and `StrictXml.EmittedOk` |
| Osm.FallbackNameGasStation | geofabrik_to_csv_pbf.py:322 | a nameless gas station is called "Unknown Gas_Station": title-casing capitalises the letter after the underscore |
| RuleTables.FirstIndexFrom | geofabrik_to_csv_pbf.py:193-242 | the index found is the first firing rule at or after the start: no rule before it fires, and it fires unless it is past the end |
| RuleTables.FirstMatch | geofabrik_to_csv_pbf.py:193-242 | an if/elif chain read as a table: no answer exactly when no rule fires, otherwise the category of a firing rule with no firing rule before it |
| StrictCategorizer.Categorize | geofabrik_to_csv_pbf.py:182-242 | defines the strict chain branch by branch; what it answers is stated by `CategorizeMeaning`, `StrictRuleMeanings` and `StrictIsFirstMatch` |
| StrictCategorizer.CategorizeMeaning | geofabrik_to_csv_pbf.py:182-242 | the answer is one of the ten strict labels; gas_station only for a charging station; fuel is hotel, hospital or transportation, never gas_station; a non-empty healthcare tag is at latest hospital; a non-empty shop is at latest shopping; an attraction always gets a category, and a market-named one is never tourism |
| StrictCategorizer.StrictRuleMeanings | geofabrik_to_csv_pbf.py:193-240 | each rule of the table fires exactly when the condition of its elif branch holds |
| StrictCategorizer.StrictIsFirstMatch | geofabrik_to_csv_pbf.py:74-134 | the chain (the handler's copy, identical to lines 182-242) equals first-match over the ordered strict table on every tag map |
| StrictCategorizer.StrictNoneIffNoRule | geofabrik_to_csv_pbf.py:242 | None is returned exactly when no branch matches |
| StrictCategorizer.FuelIsTransportation | geofabrik_to_csv_pbf.py:205-214 | amenity=fuel is transportation, so the gas_station branch is reached only by charging_station |
| StrictCategorizer.EmptyTagsHaveNoCategory | geofabrik_to_csv_pbf.py:193-242 | an entity without tags is not a POI |
| StrictCategorizer.AttractionByName | geofabrik_to_csv_pbf.py:216-236 | an attraction is shopping when its lower-cased name contains "market", and tourism otherwise |
| Descriptions.Describe | geofabrik_to_csv_pbf.py:244-263 | defines the builder as seven conditional appends joined with "; "; stated by `DescribeWithoutFields` and `DescribeMentionsFields` |
| Descriptions.PartsFrom | geofabrik_to_csv_pbf.py:246-261 | the reference builder contributes at most one part per field of the table |
| Descriptions.PartsFollowTable | geofabrik_to_csv_pbf.py:246-261 | the seven conditional appends produce the labelled parts in the fixed order Amenity, Shop, Tourism, Street, City, Cuisine, then the raw description |
| Descriptions.PartsFromEmpty | geofabrik_to_csv_pbf.py:246-261 | there are no parts exactly when none of the table's keys is present |
| Descriptions.PartsFromHas | geofabrik_to_csv_pbf.py:246-261 | every present key contributes its label followed by its value |
| Descriptions.DescribeWithoutFields | geofabrik_to_csv_pbf.py:263 | with none of the seven keys present, the description is "OSM Point of Interest" |
| Descriptions.DescribeMentionsFields | geofabrik_to_csv_pbf.py:136-155 | with a key present (handler copy, identical to lines 244-263), the description is the parts joined with "; " and contains that key's label and value |
| Descriptions.DescribeEmpty | geofabrik_to_csv_pbf.py:263 | the empty tag map gives the sentinel |
| Descriptions.DescribeRestaurant | geofabrik_to_csv_pbf.py:244-263 | restaurant with cuisine: "Amenity: restaurant; Cuisine: italian", without the name |
| PbfHandler.TagsOf | geofabrik_to_csv_pbf.py:46 | defines the tag dict, pair by pair; stated by `TagsOfMeaning` and `TagsOfLaterWins` |
| PbfHandler.TagsOfMeaning | geofabrik_to_csv_pbf.py:46 | the dict comprehension is empty exactly for no tags; every key appears, every entry comes from some tag, and the last tag's value is kept |
| PbfHandler.TagsOfLaterWins | geofabrik_to_csv_pbf.py:46 | a tag whose key occurs in no later tag gives that key its value: the later of two tags with the same key wins |
| PbfHandler.Accept | geofabrik_to_csv_pbf.py:35-69 | defines the record `node` appends, or none; stated by `AcceptMeaning` |
| PbfHandler.AcceptMeaning | geofabrik_to_csv_pbf.py:35-61 | a node yields no record exactly when the cap is reached, it lies outside the box, it has no tags, it has no category or its coordinates are out of range; otherwise the record carries its location, category, name and description |
| PbfHandler.PoiHandler.constructor | geofabrik_to_csv_pbf.py:28-33 | a new handler holds no records and keeps the given bounds and cap |
| PbfHandler.PoiHandler.Node | geofabrik_to_csv_pbf.py:35-69 | one call appends at most the one record that acceptance gives and changes nothing else; a positive cap that held before still holds |
| PbfHandler.HandlerPois | geofabrik_to_csv_pbf.py:35-69 | defines the handler's records after a run of nodes; stated by `ParseOsmPbf`, `HandlerCap`, `HandlerRecordsOk`, `HandlerSaturates` and `HandlerPrefix` |
| PbfHandler.ParseOsmPbf | geofabrik_to_csv_pbf.py:265-273 | a fresh handler is fed every node; the result is the handler's records, or an exception (None) when decoding fails |
| PbfHandler.HandlerCap | geofabrik_to_csv_pbf.py:36-37 | under a positive cap a file never yields more than the cap |
| PbfHandler.HandlerNegativeCap | geofabrik_to_csv_pbf.py:36-37 | a negative cap is truthy and already reached: no record is accepted |
| PbfHandler.HandlerRecordsOk | geofabrik_to_csv_pbf.py:40-69 | every record lies in the box and in [-90,90]x[-180,180] and carries a strict category |
| PbfHandler.HandlerSaturates | geofabrik_to_csv_pbf.py:36-37 | once the cap is reached, further nodes change nothing |
| PbfHandler.HandlerPrefix | geofabrik_to_csv_pbf.py:63-69 | records come out in node order: the records of a prefix of the nodes are a prefix of the records |
| StrictXml.StepEvent | geofabrik_to_csv_pbf.py:290-340 | defines the effect of one event; stated by `StepMeaning` and `StepOk` |
| StrictXml.StepMeaning | geofabrik_to_csv_pbf.py:290-340 | a node start whose coordinates both parse opens a candidate at those values with no tags, and one missing a coordinate changes nothing; an event raises exactly when it is malformed or is a node start whose two non-empty coordinates do not both parse; only a node end stops, and only at the cap; an event either keeps the records or appends one at a node end; the end of a candidate with tags, inside the box and with a category always appends the record named by the name tag or the fallback name, with that category, the candidate's coordinates and the description of its tags, and otherwise drops the candidate; a node end without a candidate or without tags changes nothing; a tag inside a candidate records its key and value exactly when both are non-empty; every other start or end changes nothing |
| StrictXml.Run | geofabrik_to_csv_pbf.py:290-347 | defines the records after the remaining events; stated by `RunOk` and `UncappedMalformedLosesAll` |
| StrictXml.ParseXml | geofabrik_to_csv_pbf.py:275-349 | defines the records of one file; stated by `ParseOsmXml` and `XmlRecordsOk` |
| StrictXml.ParseOsmXml | geofabrik_to_csv_pbf.py:275-349 | the loop returns exactly the records of the single pass (all of them lost on an exception) |
| StrictXml.EmittedOk | geofabrik_to_csv_pbf.py:319-331 | a record built at a node end inside the box has a strict category and a non-empty name |
| StrictXml.StepOk | geofabrik_to_csv_pbf.py:290-340 | one event keeps tag values non-empty, the records good and the count below a positive cap; a break delivers exactly the cap |
| StrictXml.RunOk | geofabrik_to_csv_pbf.py:290-340 | from a good state, every record of the pass is good, a positive cap is respected and a negative cap allows one record |
| StrictXml.XmlRecordsOk | geofabrik_to_csv_pbf.py:275-349 | every record of a file lies in the box, carries a strict category and a name; at most the cap for a positive cap, at most one for a negative cap |
| StrictXml.UncappedMalformedLosesAll | geofabrik_to_csv_pbf.py:345-347 | without a cap, malformed text anywhere makes the file yield nothing |
| StrictXml.CafeSteps | geofabrik_to_csv_pbf.py:301-340 | an amenity=cafe tag inside a candidate is recorded, and the node's end emits the restaurant record |
| StrictXml.OneCafeDocument | geofabrik_to_csv_pbf.py:285-349 | a document with one cafe node gives exactly that record |
| StrictXml.OutOfRangeLatitudeKept | geofabrik_to_csv_pbf.py:296-331 | a node at latitude 91 is emitted: this path does no range check |
| StrictXml.CoordinatesLeak | geofabrik_to_csv_pbf.py:292-340 | a node without coordinates opens no candidate, so its tags go to the earlier untagged node's position |
| StrictXml.LargerCapCanLoseRecords | geofabrik_to_csv_pbf.py:336-347 | with a cap of 1, a POI before malformed text is kept; with a cap of 2, the pass reads on, raises and loses it |
| StrictConverter.IsOsmFile | geofabrik_to_csv_pbf.py:169 | defines the suffix filter; stated by `DiscoveryScenario`, `PbfDispatch` and `LenientConverter.FiltersCompared` |
| StrictConverter.UsesPbf | geofabrik_to_csv_pbf.py:415 | defines the `.pbf` dispatch test; stated by `PbfDispatch` |
| StrictConverter.PbfDispatch | geofabrik_to_csv_pbf.py:415 | among OSM files, the binary parser is chosen exactly for .osm.pbf |
| StrictConverter.DiscoveryScenario | geofabrik_to_csv_pbf.py:169 | .osm, .osm.bz2, .osm.gz and .osm.pbf names are kept; .xml and .txt names are not |
| StrictConverter.FileRecords | geofabrik_to_csv_pbf.py:415-422 | defines one file's records or its exception; stated by `ParseFile` and `FileRecordsOk` |
| StrictConverter.Collect | geofabrik_to_csv_pbf.py:410-433 | defines the file loop from collected records on; stated by `Feed`, `CollectOk`, `CollectCap` and `CollectExtends` |
| StrictConverter.AllRecords | geofabrik_to_csv_pbf.py:408-433 | defines the records of the whole run; stated by `Aggregate` and `AllRecordsOk` |
| StrictConverter.ParseFile | geofabrik_to_csv_pbf.py:415-422 | a file goes to the PBF or the XML parser by its .pbf suffix and yields that parser's records, or None when it raises |
| StrictConverter.Feed | geofabrik_to_csv_pbf.py:413-433 | one turn of the file loop only extends the records and either breaks or hands the rest to the next turn, as the loop's definition says |
| StrictConverter.Aggregate | geofabrik_to_csv_pbf.py:408-433 | the loop gives each file the remaining budget, skips files that raise, and stops at the cap |
| StrictConverter.Convert | geofabrik_to_csv_pbf.py:385-437 | exit status 1 for a missing input, no files or no records; otherwise 0, with all records written |
| StrictConverter.FileRecordsOk | geofabrik_to_csv_pbf.py:415-422 | one file's records lie in the box and carry a strict category; at most the cap for a positive cap, at most one for a negative cap |
| StrictConverter.CollectExtends | geofabrik_to_csv_pbf.py:424 | records are only ever extended: the output keeps file order |
| StrictConverter.CollectOk | geofabrik_to_csv_pbf.py:408-433 | every collected record lies in the box and carries a strict category |
| StrictConverter.CollectCap | geofabrik_to_csv_pbf.py:420-429 | with a positive cap, the total over all files never exceeds it |
| StrictConverter.AllRecordsOk | geofabrik_to_csv_pbf.py:408-433 | the run's records are good, at most max_pois of them for a positive cap, at most one for a negative cap |
| StrictConverter.NegativeCap | geofabrik_to_csv_pbf.py:420-429 | a negative cap stops the loop after the first file that does not raise, with at most one record |
| StrictConverter.ZeroCapStarvesLaterFiles | geofabrik_to_csv_pbf.py:420-427 | with a cap of 0, once records exist each further file adds at most one |
| StrictConverter.FailingFileSkipped | geofabrik_to_csv_pbf.py:431-433 | a file whose decoder raises contributes nothing and the loop goes on |
| StrictConverter.OneFile | geofabrik_to_csv_pbf.py:408-433 | a single file yields its parser's records, or nothing when the parser raises |
| StrictConverter.LargerBudgetCanLoseRecords | geofabrik_to_csv_pbf.py:420-429 | raising the cap from 1 to 2 can turn one record into none |
| LenientCategorizer.Categorize | geofabrik_to_csv.py:30-78 | total: always one of the eleven labels, never None; fuel and parking at latest transportation; bank and atm at latest bank; hospital is hotel or hospital; emergency only for police or fire_station; healthcare at latest hospital |
| LenientCategorizer.LenientRuleMeanings | geofabrik_to_csv.py:37-75 | each rule of the table fires exactly when the condition of its elif branch holds |
| LenientCategorizer.LenientIsFirstMatch | geofabrik_to_csv.py:37-78 | the chain equals first-match over the ordered lenient table, with "other" when no rule fires |
| LenientCategorizer.OtherIffNoRule | geofabrik_to_csv.py:77-78 | "other" comes out exactly when no rule fires |
| LenientCategorizer.PrecedenceScenarios | geofabrik_to_csv.py:46-67 | fuel and parking give transportation, bank and atm give bank, hospital gives hospital, police gives emergency, unknown or no tags give other |
| LenientConverter.IsOsmFile | geofabrik_to_csv.py:26 | defines this converter's suffix filter; stated by `FiltersCompared` and `UnreadableFileSkipped` |
| LenientConverter.Description | geofabrik_to_csv.py:124-135 | with a cuisine, the description ends with ")" |
| LenientConverter.Record | geofabrik_to_csv.py:123-136 | defines the emitted record; stated by `RecordIsOk` and `StepMeaning` |
| LenientConverter.StepEvent | geofabrik_to_csv.py:98-150 | defines the effect of one event; stated by `StepMeaning` and `StepOk` |
| LenientConverter.StepMeaning | geofabrik_to_csv.py:98-150 | a node start opens an entity with no tags and takes the node's own lat and lon text; a way start opens an entity with no tags and keeps the coordinates; only an emitting node end stops, at the cap; only an emitting node end touches the records, appending exactly its record; a tag inside a node or way is recorded exactly when key and value are non-empty, and ignored outside; a node or way end clears everything but the records, and every other start or end changes nothing; the pass raises exactly on malformed text or unparseable coordinates of an emitting node |
| LenientConverter.Run | geofabrik_to_csv.py:98-160 | defines the records after the remaining events; stated by `RunOk` |
| LenientConverter.ParseXml | geofabrik_to_csv.py:80-160 | defines the records of one file; stated by `ParseOsmXml` and `XmlRecordsOk` |
| LenientConverter.ParseOsmXml | geofabrik_to_csv.py:80-160 | the loop returns exactly the records of the single pass, and nothing on an exception |
| LenientConverter.StartElement | geofabrik_to_csv.py:99-111 | the `start` branch of the loop leaves exactly the state the single-pass step gives |
| LenientConverter.EndElement | geofabrik_to_csv.py:113-150 | the `end` branch of the loop carries on, stops at the cap or raises exactly as the single-pass step does |
| LenientConverter.OneCafeDocument | geofabrik_to_csv.py:98-150 | a document with one named cafe node yields exactly that node's record, at the coordinates parsed from its own attributes, whatever the cap |
| LenientConverter.RecordIsOk | geofabrik_to_csv.py:130-136 | every emitted record has a lenient category, and its name and description have no whitespace at either end |
| LenientConverter.StepOk | geofabrik_to_csv.py:98-150 | one event keeps the records good and below the cap; a break delivers at most max(max_pois, 1) |
| LenientConverter.RunOk | geofabrik_to_csv.py:98-150 | from a good state, every record of the pass is good and there are at most max(max_pois, 1) of them |
| LenientConverter.XmlRecordsOk | geofabrik_to_csv.py:80-160 | every record of a file is good; at most max_pois for a positive cap, at most one otherwise |
| LenientConverter.Collect | geofabrik_to_csv.py:214-235 | defines the budget loop; stated by `Process`, `CollectCap`, `CollectExtends` and `UnreadableFileSkipped` |
| LenientConverter.Process | geofabrik_to_csv.py:187-249 | False for a missing input, no files or no records; otherwise True, with the records of the budget loop |
| LenientConverter.CollectCap | geofabrik_to_csv.py:214-235 | the total over all files respects a positive cap, and is at most one record otherwise |
| LenientConverter.CollectExtends | geofabrik_to_csv.py:218-235 | records are only ever extended: they come out file by file |
| LenientConverter.UnreadableFileSkipped | geofabrik_to_csv.py:87-160 | the filter keeps .osm.bz2 and .osm.pbf names, but a file the reader cannot parse from its first event adds nothing and the loop goes on |
| LenientConverter.FiltersCompared | geofabrik_to_csv.py:26 | this converter's file filter accepts a subset of the XML/PBF converter's, and misses exactly the .osm.gz names |
| OverpassRows.AmenityCategory | poi_downloader.py:79-101 | "amenity" exactly for unlisted amenities; fuel gives gas_station, pharmacy gives pharmacy, parking gives parking |
| OverpassRows.Kind | poi_downloader.py:75-114 | precedence amenity > shop > tourism > healthcare > other, with "null" counted as absent; the description is the deciding value, or "POI" when none decides |
| OverpassRows.WithCuisine | poi_downloader.py:116-118 | a present cuisine is appended as " (cuisine)" whatever the category; otherwise the description is unchanged |
| OverpassRows.Clean | poi_downloader.py:120-122 | the cleaned text has no double quote, no newline and no whitespace at either end, and is no longer than the input |
| OverpassRows.CleanMeaning | poi_downloader.py:120-122 | the cleaned text is a slice of the input with quotes removed and newlines turned into spaces, with only whitespace cut away at the two ends |
| OverpassRows.CleanKeepsCleanText | poi_downloader.py:120-122 | text that is already free of quotes, newlines and surrounding whitespace comes out unchanged |
| OverpassRows.RowToPoi | poi_downloader.py:63-130 | a row yields a record exactly when its name is present and both coordinates parse; the record carries the parsed coordinates, the cascade's category, the cleaned name and the cleaned description with its cuisine, both free of quotes, newlines and surrounding whitespace |
| OverpassRows.LineToPoi | poi_downloader.py:59-130 | defines one line's record, or none; stated by `ConvertLine`, `FieldsOfLine` and `RowToPoi` |
| OverpassRows.FilterMap | poi_downloader.py:57-130 | at most one record per line |
| OverpassRows.FilterMapAppend | poi_downloader.py:57-130 | records come out in line order: converting two runs of lines concatenates their records |
| OverpassRows.FilterMapKeepsAll | poi_downloader.py:57-130 | every line yields a record exactly when no line is skipped |
| OverpassRows.ClassifyRow | poi_downloader.py:75-118 | the category and description assignments agree with the cascade and the cuisine suffix |
| OverpassRows.ConvertLine | poi_downloader.py:58-130 | one line: split on tabs, skipped below eight fields, then the skip rules, the cascade and the cleaning |
| OverpassRows.ConvertAll | poi_downloader.py:57-132 | the loop appends each accepted line's record, in input order |
| OverpassRows.DataLines | poi_downloader.py:45-58 | defines the lines after the header; stated by `ParseResponse` and `HeaderOnly` |
| OverpassRows.ParseResponse | poi_downloader.py:45-58 | empty text or a header alone gives no records; otherwise every line after the header is converted |
| OverpassRows.SplitJoin | poi_downloader.py:59 | splitting tab-joined fields without tabs gives the fields back |
| OverpassRows.FieldsOfLine | poi_downloader.py:59-63 | a line with fewer than eight fields is skipped; with eight or more, only the first eight matter |
| OverpassRows.HeaderOnly | poi_downloader.py:50-58 | a response of one line yields no data lines: the header never becomes a record |

## Left out

- The network call of `download_pois` (poi_downloader.py:38-47, 134-136):
  `requests.get`, `raise_for_status`, timeouts and `RequestException`.
  The response text is an input. The bbox arithmetic (poi_downloader.py:9-14)
  is left out too, because it is floating point.
- File system and archive work is not modelled: `extract_zip_file`, the
  `os.walk` traversal of `find_osm_files` (only its suffix test is
  modelled), temporary directories and `shutil.rmtree`. The list of files
  is an input.
- `open_osm_file` decompression of `.bz2` and `.gz` in
  geofabrik_to_csv_pbf.py is not modelled: a file of that converter is
  given as the events its decompressed text produces. The XML-only
  converter does not decompress (geofabrik_to_csv.py:89): a file of it is
  given as the events of its raw bytes, so a compressed or PBF file that its
  filter keeps starts with `Malformed` and yields nothing
  (`LenientConverter.UnreadableFileSkipped`).
- `xml.etree.iterparse` is replaced by an event sequence. `elem.clear()` and
  `root.clear()` only free memory and are left out.
- osmium is foreign code. `apply_file` is modelled as feeding the decoded
  nodes to the handler one by one, and decoder failure as a flag.
- The `OSMIUM_AVAILABLE` branches (geofabrik_to_csv_pbf.py:267-268, 416-419)
  are not modelled. The class definition at geofabrik_to_csv_pbf.py:25
  already needs osmium, so the script cannot run without it and the
  `ImportError` path is unreachable.
- CSV writing and reading are library serialisation and are not modelled:
  `write_csv`, `save_to_csv`, the per-file CSV of geofabrik_to_csv.py:163-185,
  and the final CSV.
- LenientConverter.Process: the temporary-CSV round trip
  (geofabrik_to_csv.py:221-230) returns records read back as strings. The
  model keeps the records themselves. It counts what the parser returned
  (`pois_extracted`), as the source does.
- Progress and summary `print`s are left out, as are the category counts,
  the `processed_count` field (never updated), `argparse` and `sys.argv`.
- Text.ParseDecimal: `float()` is modelled only on plain decimal notation:
  an optional sign, digits and an optional point. Python also accepts
  exponents, `inf`, `nan`, underscores and surrounding whitespace. The
  model rejects them, so such rows and nodes count as unparseable.
- Text.Lower, Text.TitleAfter, Text.Strip: ASCII only. Python's Unicode
  case mapping and whitespace classes are not modelled.
- Floating-point precision of coordinates is not modelled: they are exact
  reals. The code only compares them on these paths.
- PbfHandler.PoiHandler.Node: `max_pois=None` is modelled as 0, which is
  equally falsy. `main` always passes an integer.
- LenientConverter.Description: the contract states only that a present
  cuisine leaves ")" as the last character. The choice of the first
  non-empty of amenity, shop and tourism is stated by the definition itself.
  The absence of surrounding whitespace is stated by `RecordIsOk`.
