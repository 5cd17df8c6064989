/**
 * The driver of the XML/PBF converter: which file names count as OSM
 * files, which parser a file goes to, and the loop that runs the parser on
 * every file with the budget that remains and collects the records.
 */
module StrictConverter {
  import opened Wrappers
  import opened Text
  import opened Osm
  import opened StrictCategorizer
  import opened PbfHandler
  import opened StrictXml

  /** `find_osm_files` keeps a file name when it ends with one of these four suffixes. */
  predicate IsOsmFile(name: string) {
    EndsWith(name, ".osm") || EndsWith(name, ".osm.bz2") || EndsWith(name, ".osm.gz") || EndsWith(name, ".osm.pbf")
  }

  /** A path ending in `.pbf` goes to the binary parser, everything else to the XML parser. */
  predicate UsesPbf(path: string) {
    EndsWith(path, ".pbf")
  }

  /** Among OSM files, the binary parser is chosen exactly for `.osm.pbf`. */
  lemma PbfDispatch(name: string)
    requires IsOsmFile(name)
    ensures UsesPbf(name) <==> EndsWith(name, ".osm.pbf")
  {
    var n := |name|;
    if UsesPbf(name) {
      assert name[n - 1] == 'f';
      assert !EndsWith(name, ".osm") by { assert ".osm"[3] == 'm'; }
      assert !EndsWith(name, ".osm.bz2") by { assert ".osm.bz2"[7] == '2'; }
      assert !EndsWith(name, ".osm.gz") by { assert ".osm.gz"[6] == 'z'; }
    }
    if EndsWith(name, ".osm.pbf") {
      assert name[n - 4..] == ".osm.pbf"[4..];
    }
  }

  /** The six names of the discovery scenario: the four OSM files are kept, the other two are not. */
  lemma DiscoveryScenario()
    ensures IsOsmFile("test.osm") && IsOsmFile("test.osm.bz2") && IsOsmFile("test.osm.gz") && IsOsmFile("test.osm.pbf")
    ensures !IsOsmFile("other.xml") && !IsOsmFile("readme.txt")
  {
    assert "test.osm"[4..] == ".osm";
    assert "test.osm.bz2"[4..] == ".osm.bz2";
    assert "test.osm.gz"[4..] == ".osm.gz";
    assert "test.osm.pbf"[4..] == ".osm.pbf";
    assert "other.xml"[8] == 'l';
    assert "readme.txt"[9] == 't';
  }

  /**
   * One input file as the parsers see it: its path, the event stream of its
   * XML text and what the binary decoder delivers for it. Only the one the
   * path selects is used.
   */
  datatype OsmFile = OsmFile(path: string, events: seq<XmlEvent>, pbf: PbfData)

  /** The records of one file under cap `cap`, or None when the parser raises. */
  function FileRecords(f: OsmFile, bounds: Option<Bounds>, cap: int): Option<seq<Poi>> {
    if UsesPbf(f.path) then
      if f.pbf.corrupt then None else Some(HandlerPois(f.pbf.nodes, bounds, cap))
    else
      Some(ParseXml(f.events, bounds, cap))
  }

  /**
   * The loop over the files from collected records `acc` on: each file gets
   * `max_pois - len(all_pois)`, a file that raises is skipped, and the loop
   * stops once a truthy cap is reached.
   */
  function Collect(files: seq<OsmFile>, bounds: Option<Bounds>, maxPois: int, acc: seq<Poi>): seq<Poi>
    decreases |files|
  {
    if files == [] then acc
    else match FileRecords(files[0], bounds, maxPois - |acc|)
      case None => Collect(files[1..], bounds, maxPois, acc)
      case Some(pois) =>
        var all := acc + pois;
        if CapReached(|all|, maxPois) then all else Collect(files[1..], bounds, maxPois, all)
  }

  /** The records collected from all files. */
  function AllRecords(files: seq<OsmFile>, bounds: Option<Bounds>, maxPois: int): seq<Poi> {
    Collect(files, bounds, maxPois, [])
  }

  /** The dispatch on the `.pbf` suffix; None when the parser raises. */
  method ParseFile(f: OsmFile, bounds: Option<Bounds>, cap: int) returns (r: Option<seq<Poi>>)
    ensures r == FileRecords(f, bounds, cap)
  {
    if EndsWith(f.path, ".pbf") {
      r := ParseOsmPbf(f.pbf, bounds, cap);
    } else {
      var pois := ParseOsmXml(f.events, bounds, cap);
      r := Some(pois);
    }
  }

  /** One turn of the file loop. */
  lemma CollectStep(files: seq<OsmFile>, i: nat, bounds: Option<Bounds>, maxPois: int, acc: seq<Poi>, r: Option<seq<Poi>>)
    requires i < |files| && r == FileRecords(files[i], bounds, maxPois - |acc|)
    ensures Collect(files[i..], bounds, maxPois, acc) ==
      match r
      case None => Collect(files[i + 1..], bounds, maxPois, acc)
      case Some(pois) =>
        if CapReached(|acc + pois|, maxPois) then acc + pois else Collect(files[i + 1..], bounds, maxPois, acc + pois)
  {
    assert files[i..][1..] == files[i + 1..];
  }

  /**
   * One turn of the file loop: parse file `i` with the budget left, extend
   * the records and say whether the cap is now reached (`break`). A file
   * whose parser raises is skipped.
   */
  method Feed(files: seq<OsmFile>, i: nat, bounds: Option<Bounds>, maxPois: int, all: seq<Poi>) returns (next: seq<Poi>, stop: bool)
    requires i < |files|
    ensures all <= next
    ensures Collect(files[i..], bounds, maxPois, all) ==
      if stop then next else Collect(files[i + 1..], bounds, maxPois, next)
  {
    var result := ParseFile(files[i], bounds, maxPois - |all|);
    CollectStep(files, i, bounds, maxPois, all, result);
    next, stop := all, false;
    if result.Some? {
      next := all + result.value;
      if maxPois != 0 && |next| >= maxPois {
        stop := true;
      }
    }
  }

  /** The file loop of `main`, calling the two parsers. */
  method Aggregate(files: seq<OsmFile>, bounds: Option<Bounds>, maxPois: int) returns (all: seq<Poi>)
    ensures all == AllRecords(files, bounds, maxPois)
  {
    all := [];
    var i := 0;
    while i < |files|
      invariant 0 <= i <= |files|
      invariant Collect(files[i..], bounds, maxPois, all) == AllRecords(files, bounds, maxPois)
    {
      var stop;
      all, stop := Feed(files, i, bounds, maxPois, all);
      if stop {
        return;
      }
      i := i + 1;
    }
    assert files[i..] == [] by { assert i == |files|; }
  }

  /**
   * The exit status of `main` after the input check and the file listing:
   * 1 for a missing input, an empty listing or no records at all, 0 (and
   * the records written) otherwise.
   */
  method Convert(inputExists: bool, files: seq<OsmFile>, bounds: Option<Bounds>, maxPois: int) returns (code: int, written: seq<Poi>)
    ensures code == 0 || code == 1
    ensures code == 0 <==> inputExists && files != [] && AllRecords(files, bounds, maxPois) != []
    ensures written == if code == 0 then AllRecords(files, bounds, maxPois) else []
  {
    if !inputExists || files == [] {
      return 1, [];
    }
    var all := Aggregate(files, bounds, maxPois);
    if all == [] {
      return 1, [];
    }
    return 0, all;
  }

  /** A file's records lie in the box and carry a strict category. */
  predicate InBoxAndStrict(p: Poi, bounds: Option<Bounds>) {
    InBounds(p.latitude, p.longitude, bounds) && p.category in StrictCategories
  }

  /** What one file contributes under cap `cap`: good records, at most `cap` of them for a positive cap, at most one for a negative cap. */
  lemma FileRecordsOk(f: OsmFile, bounds: Option<Bounds>, cap: int)
    ensures FileRecords(f, bounds, cap).Some? ==>
      var pois := FileRecords(f, bounds, cap).value;
      && (forall p | p in pois :: InBoxAndStrict(p, bounds))
      && (cap > 0 ==> |pois| <= cap)
      && (cap < 0 ==> |pois| <= 1)
  {
    if UsesPbf(f.path) {
      HandlerRecordsOk(f.pbf.nodes, bounds, cap);
      if cap > 0 {
        HandlerCap(f.pbf.nodes, bounds, cap);
      } else if cap < 0 {
        HandlerNegativeCap(f.pbf.nodes, bounds, cap);
      }
    } else {
      XmlRecordsOk(f.events, bounds, cap);
    }
  }

  /** Collecting keeps what was collected before, in front: output is in file order. */
  lemma {:induction false} CollectExtends(files: seq<OsmFile>, bounds: Option<Bounds>, maxPois: int, acc: seq<Poi>)
    ensures acc <= Collect(files, bounds, maxPois, acc)
    decreases |files|
  {
    if files != [] {
      match FileRecords(files[0], bounds, maxPois - |acc|)
      case None => CollectExtends(files[1..], bounds, maxPois, acc);
      case Some(pois) =>
        var all := acc + pois;
        if !CapReached(|all|, maxPois) {
          CollectExtends(files[1..], bounds, maxPois, all);
        }
    }
  }

  /** Every collected record lies in the box and carries a strict category. */
  lemma {:induction false} CollectOk(files: seq<OsmFile>, bounds: Option<Bounds>, maxPois: int, acc: seq<Poi>)
    requires forall p | p in acc :: InBoxAndStrict(p, bounds)
    ensures forall p | p in Collect(files, bounds, maxPois, acc) :: InBoxAndStrict(p, bounds)
    decreases |files|
  {
    if files != [] {
      FileRecordsOk(files[0], bounds, maxPois - |acc|);
      match FileRecords(files[0], bounds, maxPois - |acc|)
      case None => CollectOk(files[1..], bounds, maxPois, acc);
      case Some(pois) =>
        var all := acc + pois;
        if !CapReached(|all|, maxPois) {
          CollectOk(files[1..], bounds, maxPois, all);
        }
    }
  }

  /** A positive cap bounds the total over all files. */
  lemma {:induction false} CollectCap(files: seq<OsmFile>, bounds: Option<Bounds>, maxPois: int, acc: seq<Poi>)
    requires maxPois > 0 && |acc| < maxPois
    ensures |Collect(files, bounds, maxPois, acc)| <= maxPois
    decreases |files|
  {
    if files != [] {
      FileRecordsOk(files[0], bounds, maxPois - |acc|);
      match FileRecords(files[0], bounds, maxPois - |acc|)
      case None => CollectCap(files[1..], bounds, maxPois, acc);
      case Some(pois) =>
        var all := acc + pois;
        if !CapReached(|all|, maxPois) {
          CollectCap(files[1..], bounds, maxPois, all);
        }
    }
  }

  /** The guarantees of the whole run: good records, in file order, at most `max_pois` of them for a positive cap, at most one for a negative one. */
  lemma AllRecordsOk(files: seq<OsmFile>, bounds: Option<Bounds>, maxPois: int)
    ensures forall p | p in AllRecords(files, bounds, maxPois) :: InBoxAndStrict(p, bounds)
    ensures maxPois > 0 ==> |AllRecords(files, bounds, maxPois)| <= maxPois
    ensures maxPois < 0 ==> |AllRecords(files, bounds, maxPois)| <= 1
  {
    CollectOk(files, bounds, maxPois, []);
    if maxPois > 0 {
      CollectCap(files, bounds, maxPois, []);
    } else if maxPois < 0 {
      NegativeCap(files, bounds, maxPois);
    }
  }

  /** A negative cap stops the loop after the first file that does not raise, which adds at most one record. */
  lemma {:induction false} NegativeCap(files: seq<OsmFile>, bounds: Option<Bounds>, maxPois: int)
    requires maxPois < 0
    ensures |Collect(files, bounds, maxPois, [])| <= 1
    decreases |files|
  {
    if files != [] {
      FileRecordsOk(files[0], bounds, maxPois);
      if FileRecords(files[0], bounds, maxPois).None? {
        NegativeCap(files[1..], bounds, maxPois);
      }
    }
  }

  /**
   * With a cap of 0 (no cap for the loop) the budget handed to later files
   * is `0 - len(all_pois)`, negative once anything was collected, so each
   * later file adds at most one record.
   */
  lemma {:induction false} ZeroCapStarvesLaterFiles(files: seq<OsmFile>, bounds: Option<Bounds>, acc: seq<Poi>)
    requires acc != []
    ensures |Collect(files, bounds, 0, acc)| <= |acc| + |files|
    decreases |files|
  {
    if files != [] {
      FileRecordsOk(files[0], bounds, 0 - |acc|);
      match FileRecords(files[0], bounds, 0 - |acc|)
      case None => ZeroCapStarvesLaterFiles(files[1..], bounds, acc);
      case Some(pois) => ZeroCapStarvesLaterFiles(files[1..], bounds, acc + pois);
    }
  }

  /** A file whose decoder raises contributes nothing and the loop goes on with the next one. */
  lemma FailingFileSkipped(f: OsmFile, rest: seq<OsmFile>, bounds: Option<Bounds>, maxPois: int, acc: seq<Poi>)
    requires UsesPbf(f.path) && f.pbf.corrupt
    ensures Collect([f] + rest, bounds, maxPois, acc) == Collect(rest, bounds, maxPois, acc)
  {
    assert ([f] + rest)[1..] == rest;
  }

  /** A single file yields what its parser returns, or nothing when it raises, whatever the cap. */
  lemma OneFile(f: OsmFile, bounds: Option<Bounds>, maxPois: int)
    ensures AllRecords([f], bounds, maxPois) == FileRecords(f, bounds, maxPois).GetOr([])
  {
    var empty: seq<Poi> := [];
    var r := FileRecords(f, bounds, maxPois);
    CollectStep([f], 0, bounds, maxPois, empty, r);
    assert [f][0..] == [f] && [f][1..] == [];
    if r.Some? {
      assert empty + r.value == r.value;
    }
  }

  /**
   * The budget is not monotonic: one XML file whose cafe node is followed
   * by malformed text gives its record under `max_pois` 1, but nothing
   * under `max_pois` 2, since the parser then reads on and raises.
   */
  lemma LargerBudgetCanLoseRecords(path: string, lat: string, lon: string, c: Coord, pbf: PbfData)
    requires !UsesPbf(path)
    requires ParseDecimal(lat) == Some(c.lat) && ParseDecimal(lon) == Some(c.lon)
    ensures var files := [OsmFile(path, DamagedCafeDocument(lat, lon), pbf)];
      AllRecords(files, None, 1) == [CafeRecord(c)] && AllRecords(files, None, 2) == []
  {
    var f := OsmFile(path, DamagedCafeDocument(lat, lon), pbf);
    LargerCapCanLoseRecords(lat, lon, c);
    OneFile(f, None, 1);
    OneFile(f, None, 2);
  }
}
