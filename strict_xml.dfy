/**
 * `parse_osm_xml` of the XML/PBF converter: a single pass over the
 * start/end events of an OSM XML document. The first event (the root
 * element) is skipped; a `<node>` with both coordinates opens a candidate,
 * its `<tag>` children fill the tag set, and its end event emits at most
 * one record. Any exception discards everything collected from the file.
 */
module StrictXml {
  import opened Wrappers
  import opened Text
  import opened Osm
  import opened StrictCategorizer
  import opened Descriptions

  datatype Coord = Coord(lat: real, lon: real)

  /** `current_node`, `current_tags` and `pois` between two events. */
  datatype XmlState = XmlState(node: Option<Coord>, tags: TagMap, pois: seq<Poi>)

  /** What one event does: carry on, stop at the cap (`break`), or raise. */
  datatype Step = Continue(next: XmlState) | Finish(pois: seq<Poi>) | Raise

  const Initial: XmlState := XmlState(None, map[], [])

  /** The candidate is dropped and the tag set emptied. */
  function Reset(pois: seq<Poi>): XmlState {
    XmlState(None, map[], pois)
  }

  /** The effect of one event after the root. */
  function StepEvent(st: XmlState, ev: XmlEvent, bounds: Option<Bounds>, maxPois: int): Step
  {
    match ev
    case Malformed => Raise
    case Start(tag, attrs) =>
      if tag == "node" then
        var lat, lon := Attr(attrs, "lat"), Attr(attrs, "lon");
        if lat != "" && lon != "" then
          match (ParseDecimal(lat), ParseDecimal(lon))
          case (Some(a), Some(b)) => Continue(XmlState(Some(Coord(a, b)), map[], st.pois))
          case _ => Raise
        else Continue(st)
      else if tag == "tag" && st.node.Some? then
        var k, v := Attr(attrs, "k"), Attr(attrs, "v");
        if k != "" && v != "" then Continue(st.(tags := st.tags[k := v])) else Continue(st)
      else Continue(st)
    case End(tag) =>
      if tag == "node" && st.node.Some? && st.tags != map[] then
        var c := st.node.value;
        if !InBounds(c.lat, c.lon, bounds) then Continue(Reset(st.pois))
        else match Categorize(st.tags)
          case None => Continue(Reset(st.pois))
          case Some(category) =>
            var pois := st.pois + [Poi(RecordName(st.tags, category), category, c.lat, c.lon, Describe(st.tags))];
            if CapReached(|pois|, maxPois) then Finish(pois) else Continue(Reset(pois))
      else Continue(st)
  }

  /**
   * What one event may do: it raises exactly on malformed text or a
   * `<node>` start whose two non-empty coordinates do not both parse; only
   * a node's end emits, one record at a time appended to the list; the end
   * of a candidate with tags inside the box whose tags have a category
   * always appends the record named by `RecordName`, with that category,
   * the candidate's coordinates and `Describe` of its tags, and otherwise
   * drops the candidate; a `<tag>` inside a candidate records its non-empty
   * key and value.
   */
  lemma StepMeaning(st: XmlState, ev: XmlEvent, bounds: Option<Bounds>, maxPois: int, r: Step)
    requires r == StepEvent(st, ev, bounds, maxPois)
    ensures (&& ev.Start? && ev.tag == "node"
             && ParseDecimal(Attr(ev.attrs, "lat")).Some? && ParseDecimal(Attr(ev.attrs, "lon")).Some?) ==>
      r == Continue(XmlState(Some(Coord(ParseDecimal(Attr(ev.attrs, "lat")).value, ParseDecimal(Attr(ev.attrs, "lon")).value)),
                             map[], st.pois))
    ensures ev.Start? && ev.tag == "node" && (Attr(ev.attrs, "lat") == "" || Attr(ev.attrs, "lon") == "") ==> r == Continue(st)
    ensures ev.Start? && ev.tag == "tag" && st.node.Some? ==>
      r == Continue(if Attr(ev.attrs, "k") != "" && Attr(ev.attrs, "v") != ""
                    then st.(tags := st.tags[Attr(ev.attrs, "k") := Attr(ev.attrs, "v")]) else st)
    ensures ev.Start? && ev.tag != "node" && !(ev.tag == "tag" && st.node.Some?) ==> r == Continue(st)
    ensures ev.End? && ev.tag != "node" ==> r == Continue(st)
    ensures r.Raise? <==>
      || ev.Malformed?
      || (&& ev.Start? && ev.tag == "node" && Attr(ev.attrs, "lat") != "" && Attr(ev.attrs, "lon") != ""
          && (ParseDecimal(Attr(ev.attrs, "lat")).None? || ParseDecimal(Attr(ev.attrs, "lon")).None?))
    ensures (&& ev == End("node") && st.node.Some? && st.tags != map[]
             && InBounds(st.node.value.lat, st.node.value.lon, bounds) && Categorize(st.tags).Some?) ==>
      && !r.Raise?
      && (if r.Finish? then r.pois else r.next.pois) ==
         st.pois + [Poi(RecordName(st.tags, Categorize(st.tags).value), Categorize(st.tags).value,
                        st.node.value.lat, st.node.value.lon, Describe(st.tags))]
    ensures (&& ev == End("node") && st.node.Some? && st.tags != map[]
             && (!InBounds(st.node.value.lat, st.node.value.lon, bounds) || Categorize(st.tags).None?)) ==>
      r == Continue(Reset(st.pois))
    ensures ev == End("node") && (st.node.None? || st.tags == map[]) ==> r == Continue(st)
    ensures r.Finish? ==>
      ev == End("node") && CapReached(|r.pois|, maxPois) && |r.pois| == |st.pois| + 1 && st.pois <= r.pois
    ensures r.Continue? ==> r.next.pois == st.pois || (ev == End("node") && |r.next.pois| == |st.pois| + 1 && st.pois <= r.next.pois)
    ensures r.Continue? && r.next.node.None? && st.node.Some? ==> ev == End("node") && st.tags != map[]
    ensures r.Continue? && ev.Start? && ev.tag == "tag" && st.node.Some? && Attr(ev.attrs, "k") != "" && Attr(ev.attrs, "v") != ""
      ==> r.next.tags == st.tags[Attr(ev.attrs, "k") := Attr(ev.attrs, "v")]
  {
  }

  /** The list returned after the remaining events, starting from `st`. */
  function Run(events: seq<XmlEvent>, st: XmlState, bounds: Option<Bounds>, maxPois: int): seq<Poi>
    decreases |events|
  {
    if events == [] then st.pois
    else match StepEvent(st, events[0], bounds, maxPois)
      case Continue(next) => Run(events[1..], next, bounds, maxPois)
      case Finish(pois) => pois
      case Raise => []
  }

  /** The whole file: an empty or immediately malformed document raises and gives `[]`. */
  function ParseXml(events: seq<XmlEvent>, bounds: Option<Bounds>, maxPois: int): seq<Poi> {
    if events == [] || events[0].Malformed? then [] else Run(events[1..], Initial, bounds, maxPois)
  }

  /** One turn of the event loop: the run from event `i` is one step followed by the run from event `i + 1`. */
  lemma RunStep(events: seq<XmlEvent>, i: nat, st: XmlState, bounds: Option<Bounds>, maxPois: int)
    requires i < |events|
    ensures Run(events[i..], st, bounds, maxPois) ==
      match StepEvent(st, events[i], bounds, maxPois)
      case Continue(next) => Run(events[i + 1..], next, bounds, maxPois)
      case Finish(pois) => pois
      case Raise => []
  {
    assert events[i..][1..] == events[i + 1..];
  }

  /** The end of a candidate with tags inside the box: the record it emits, if the table gives a category. */
  lemma EmitStep(st: XmlState, bounds: Option<Bounds>, maxPois: int, c: Coord, category: Option<string>)
    requires st.node == Some(c) && st.tags != map[] && InBounds(c.lat, c.lon, bounds)
    requires category == Categorize(st.tags)
    ensures StepEvent(st, End("node"), bounds, maxPois) ==
      if category.None? then Continue(Reset(st.pois))
      else
        var pois := st.pois + [Poi(RecordName(st.tags, category.value), category.value, c.lat, c.lon, Describe(st.tags))];
        if CapReached(|pois|, maxPois) then Finish(pois) else Continue(Reset(pois))
  {
  }

  /** The single pass, written as the source's loop over the events. */
  method ParseOsmXml(events: seq<XmlEvent>, bounds: Option<Bounds>, maxPois: int) returns (pois: seq<Poi>)
    ensures pois == ParseXml(events, bounds, maxPois)
  {
    if events == [] || events[0].Malformed? {
      return [];
    }
    var node: Option<Coord> := None;
    var tags: TagMap := map[];
    pois := [];
    var i := 1;
    while i < |events|
      invariant 1 <= i <= |events|
      invariant Run(events[i..], XmlState(node, tags, pois), bounds, maxPois) == ParseXml(events, bounds, maxPois)
    {
      var ev := events[i];
      RunStep(events, i, XmlState(node, tags, pois), bounds, maxPois);
      match ev {
        case Malformed =>
          return [];
        case Start(tag, attrs) =>
          if tag == "node" {
            var lat, lon := Attr(attrs, "lat"), Attr(attrs, "lon");
            if lat != "" && lon != "" {
              var a, b := ParseDecimal(lat), ParseDecimal(lon);
              if a.None? || b.None? {
                return [];
              }
              node := Some(Coord(a.value, b.value));
              tags := map[];
            }
          } else if tag == "tag" && node.Some? {
            var k, v := Attr(attrs, "k"), Attr(attrs, "v");
            if k != "" && v != "" {
              tags := tags[k := v];
            }
          }
        case End(tag) =>
          if tag == "node" && node.Some? && tags != map[] {
            var c := node.value;
            if bounds.Some? && !InBounds(c.lat, c.lon, bounds) {
              node := None;
              tags := map[];
            } else {
              var category := Categorize(tags);
              EmitStep(XmlState(node, tags, pois), bounds, maxPois, c, category);
              if category.Some? {
                var name := RecordName(tags, category.value);
                pois := pois + [Poi(name, category.value, c.lat, c.lon, Describe(tags))];
                if maxPois != 0 && |pois| >= maxPois {
                  return;
                }
              }
              node := None;
              tags := map[];
            }
          }
      }
      i := i + 1;
    }
    assert events[i..] == [] by { assert i == |events|; }
  }

  /** A record of the XML path: inside the box, strictly categorized, with a non-empty name. */
  predicate XmlRecordOk(p: Poi, bounds: Option<Bounds>) {
    InBounds(p.latitude, p.longitude, bounds) && p.category in StrictCategories && p.name != ""
  }

  /** What holds between events: tag values are non-empty, records are good, the cap is not yet reached. */
  predicate StateOk(st: XmlState, bounds: Option<Bounds>, maxPois: int) {
    && (forall k | k in st.tags :: st.tags[k] != "")
    && (forall p | p in st.pois :: XmlRecordOk(p, bounds))
    && (maxPois > 0 ==> |st.pois| < maxPois)
    && (maxPois < 0 ==> st.pois == [])
  }

  /** The record a node's end builds from good tags inside the box is good. */
  lemma EmittedOk(tags: TagMap, c: Coord, category: string, bounds: Option<Bounds>)
    requires forall k | k in tags :: tags[k] != ""
    requires InBounds(c.lat, c.lon, bounds) && Categorize(tags) == Some(category)
    ensures XmlRecordOk(Poi(RecordName(tags, category), category, c.lat, c.lon, Describe(tags)), bounds)
  {
    CategorizeMeaning(tags, Some(category));
    assert RecordName(tags, category) != "" by {
      if "name" !in tags {
        assert |FallbackName(category)| >= 8;
      }
    }
  }

  /** One event keeps the state good, and a stop at the cap delivers good records. */
  lemma StepOk(st: XmlState, ev: XmlEvent, bounds: Option<Bounds>, maxPois: int)
    requires StateOk(st, bounds, maxPois)
    ensures match StepEvent(st, ev, bounds, maxPois)
      case Continue(next) => StateOk(next, bounds, maxPois)
      case Finish(pois) =>
        && (forall p | p in pois :: XmlRecordOk(p, bounds))
        && (maxPois > 0 ==> |pois| == maxPois)
        && (maxPois < 0 ==> |pois| == 1)
      case Raise => true
  {
    if ev == End("node") && st.node.Some? && st.tags != map[] {
      var c := st.node.value;
      var category := Categorize(st.tags);
      if InBounds(c.lat, c.lon, bounds) {
        EmitStep(st, bounds, maxPois, c, category);
        if category.Some? {
          EmittedOk(st.tags, c, category.value, bounds);
        }
      }
    }
  }

  /** Every record of a run is good, and the run never exceeds a positive cap. */
  lemma {:induction false} RunOk(events: seq<XmlEvent>, st: XmlState, bounds: Option<Bounds>, maxPois: int)
    requires StateOk(st, bounds, maxPois)
    ensures forall p | p in Run(events, st, bounds, maxPois) :: XmlRecordOk(p, bounds)
    ensures maxPois > 0 ==> |Run(events, st, bounds, maxPois)| <= maxPois
    ensures maxPois < 0 ==> |Run(events, st, bounds, maxPois)| <= 1
    decreases |events|
  {
    if events != [] {
      StepOk(st, events[0], bounds, maxPois);
      match StepEvent(st, events[0], bounds, maxPois)
      case Continue(next) => RunOk(events[1..], next, bounds, maxPois);
      case Finish(pois) =>
      case Raise =>
    }
  }

  /** Records of the XML path lie in the box, carry a strict category and a non-empty name. */
  lemma XmlRecordsOk(events: seq<XmlEvent>, bounds: Option<Bounds>, maxPois: int)
    ensures forall p | p in ParseXml(events, bounds, maxPois) :: XmlRecordOk(p, bounds)
    ensures maxPois > 0 ==> |ParseXml(events, bounds, maxPois)| <= maxPois
    ensures maxPois < 0 ==> |ParseXml(events, bounds, maxPois)| <= 1
  {
    if events != [] && !events[0].Malformed? {
      RunOk(events[1..], Initial, bounds, maxPois);
    }
  }

  /** Without a cap nothing stops the pass early, so a malformed event anywhere loses the whole file. */
  lemma {:induction false} UncappedMalformedLosesAll(events: seq<XmlEvent>, st: XmlState, bounds: Option<Bounds>)
    requires Malformed in events
    ensures Run(events, st, bounds, 0) == []
    decreases |events|
  {
    if events[0] != Malformed {
      assert Malformed in events[1..];
      match StepEvent(st, events[0], bounds, 0)
      case Continue(next) => UncappedMalformedLosesAll(events[1..], next, bounds);
      case Raise =>
    }
  }

  // Concrete documents. The root element is `osm`.

  const Cafe: XmlEvent := Start("tag", map["k" := "amenity", "v" := "cafe"])

  /** The state after a node's coordinates and its `amenity=cafe` tag, and the record its end emits. */
  lemma CafeSteps(c: Coord, pois: seq<Poi>, maxPois: int)
    ensures var started := XmlState(Some(c), map[], pois);
      var tagged := XmlState(Some(c), map["amenity" := "cafe"], pois);
      && StepEvent(started, Cafe, None, maxPois) == Continue(tagged)
      && StepEvent(tagged, End("tag"), None, maxPois) == Continue(tagged)
      && StepEvent(tagged, End("node"), None, maxPois) ==
         var out := pois + [CafeRecord(c)];
         if CapReached(|out|, maxPois) then Finish(out) else Continue(Reset(out))
  {
    var attrs := map["k" := "amenity", "v" := "cafe"];
    assert Attr(attrs, "k") == "amenity" && Attr(attrs, "v") == "cafe";
    var tags := map["amenity" := "cafe"];
    assert Categorize(tags) == Some("restaurant");
  }

  /** The record emitted for a node tagged only `amenity=cafe`. */
  function CafeRecord(c: Coord): Poi {
    var tags := map["amenity" := "cafe"];
    Poi(RecordName(tags, "restaurant"), "restaurant", c.lat, c.lon, Describe(tags))
  }

  /** `<node lat=.. lon=..>` whose coordinates parse opens a candidate at their values. */
  lemma NodeStep(st: XmlState, lat: string, lon: string, c: Coord, maxPois: int)
    requires ParseDecimal(lat) == Some(c.lat) && ParseDecimal(lon) == Some(c.lon)
    ensures StepEvent(st, Start("node", map["lat" := lat, "lon" := lon]), None, maxPois)
         == Continue(XmlState(Some(c), map[], st.pois))
  {
    var attrs := map["lat" := lat, "lon" := lon];
    assert Attr(attrs, "lat") == lat && Attr(attrs, "lon") == lon;
  }

  /** An event that carries on hands the rest of the document to the next state. */
  lemma RunContinues(ev: XmlEvent, rest: seq<XmlEvent>, st: XmlState, next: XmlState, bounds: Option<Bounds>, maxPois: int)
    requires StepEvent(st, ev, bounds, maxPois) == Continue(next)
    ensures Run([ev] + rest, st, bounds, maxPois) == Run(rest, next, bounds, maxPois)
  {
    assert ([ev] + rest)[1..] == rest;
  }

  /** Uncapped, the cafe tag and the ends after an opened candidate append the cafe record. */
  lemma CafeTail(c: Coord, pois: seq<Poi>)
    ensures Run([Cafe, End("tag"), End("node"), End("osm")], XmlState(Some(c), map[], pois), None, 0)
         == pois + [CafeRecord(c)]
  {
    var out := pois + [CafeRecord(c)];
    var s1 := XmlState(Some(c), map[], pois);
    var s2 := XmlState(Some(c), map["amenity" := "cafe"], pois);
    var t3 := [End("osm")];
    var t2 := [End("node")] + t3;
    var t1 := [End("tag")] + t2;
    calc {
      Run([Cafe, End("tag"), End("node"), End("osm")], s1, None, 0);
      { assert [Cafe, End("tag"), End("node"), End("osm")] == [Cafe] + t1;
        CafeSteps(c, pois, 0); RunContinues(Cafe, t1, s1, s2, None, 0); }
      Run(t1, s2, None, 0);
      { CafeSteps(c, pois, 0); RunContinues(End("tag"), t2, s2, s2, None, 0); }
      Run(t2, s2, None, 0);
      { CafeSteps(c, pois, 0); RunContinues(End("node"), t3, s2, Reset(out), None, 0); }
      Run(t3, Reset(out), None, 0);
      { assert StepEvent(Reset(out), End("osm"), None, 0) == Continue(Reset(out));
        RunContinues(End("osm"), [], Reset(out), Reset(out), None, 0); }
      Run([], Reset(out), None, 0);
    }
  }

  /** A document holding one cafe node gives exactly that node's record, whatever its coordinates. */
  lemma OneCafeDocument(lat: string, lon: string, c: Coord)
    requires ParseDecimal(lat) == Some(c.lat) && ParseDecimal(lon) == Some(c.lon)
    ensures ParseXml([Start("osm", map[]), Start("node", map["lat" := lat, "lon" := lon]), Cafe, End("tag"), End("node"), End("osm")], None, 0)
         == [CafeRecord(c)]
  {
    var s1 := XmlState(Some(c), map[], []);
    var t2 := [Cafe, End("tag"), End("node"), End("osm")];
    var t1 := [Start("node", map["lat" := lat, "lon" := lon])] + t2;
    var doc := [Start("osm", map[]), Start("node", map["lat" := lat, "lon" := lon]), Cafe, End("tag"), End("node"), End("osm")];
    calc {
      ParseXml(doc, None, 0);
      { assert doc == [Start("osm", map[])] + t1; assert doc[1..] == t1; }
      Run(t1, Initial, None, 0);
      { NodeStep(Initial, lat, lon, c, 0); RunContinues(t1[0], t2, Initial, s1, None, 0); }
      Run(t2, s1, None, 0);
      { CafeTail(c, []); }
      [] + [CafeRecord(c)];
    }
  }

  /** A node at latitude 91 is emitted: this path performs no range check on coordinates. */
  lemma OutOfRangeLatitudeKept()
    ensures ParseXml([Start("osm", map[]), Start("node", map["lat" := "91", "lon" := "0"]), Cafe, End("tag"), End("node"), End("osm")], None, 0)
         == [CafeRecord(Coord(91.0, 0.0))]
  {
    assert DigitsValue("91") == 91 by { assert "91"[..1] == "9"; }
    ParseDigits("91");
    ParseDigits("0");
    OneCafeDocument("91", "0", Coord(91.0, 0.0));
  }

  /**
   * A node without coordinates does not open a candidate, so when the
   * previous node had no tags (and so was never reset) its tags are
   * recorded at the previous node's position.
   */
  lemma CoordinatesLeak(lat: string, lon: string, c: Coord)
    requires ParseDecimal(lat) == Some(c.lat) && ParseDecimal(lon) == Some(c.lon)
    ensures ParseXml([Start("osm", map[]), Start("node", map["lat" := lat, "lon" := lon]), End("node"),
                      Start("node", map[]), Cafe, End("tag"), End("node"), End("osm")], None, 0)
         == [CafeRecord(c)]
  {
    var s1 := XmlState(Some(c), map[], []);
    var t4 := [Cafe, End("tag"), End("node"), End("osm")];
    var t3 := [Start("node", map[])] + t4;
    var t2 := [End("node")] + t3;
    var t1 := [Start("node", map["lat" := lat, "lon" := lon])] + t2;
    var doc := [Start("osm", map[]), Start("node", map["lat" := lat, "lon" := lon]), End("node"),
                Start("node", map[]), Cafe, End("tag"), End("node"), End("osm")];
    calc {
      ParseXml(doc, None, 0);
      { assert doc == [Start("osm", map[])] + t1; assert doc[1..] == t1; }
      Run(t1, Initial, None, 0);
      { NodeStep(Initial, lat, lon, c, 0); RunContinues(t1[0], t2, Initial, s1, None, 0); }
      Run(t2, s1, None, 0);
      { assert StepEvent(s1, End("node"), None, 0) == Continue(s1);
        RunContinues(End("node"), t3, s1, s1, None, 0); }
      Run(t3, s1, None, 0);
      { assert Attr(map[], "lat") == "";
        assert StepEvent(s1, Start("node", map[]), None, 0) == Continue(s1);
        RunContinues(Start("node", map[]), t4, s1, s1, None, 0); }
      Run(t4, s1, None, 0);
      { CafeTail(c, []); }
      [] + [CafeRecord(c)];
    }
  }

  /** The cafe document cut short by malformed text. */
  function DamagedCafeDocument(lat: string, lon: string): seq<XmlEvent> {
    [Start("osm", map[]), Start("node", map["lat" := lat, "lon" := lon]), Cafe, End("tag"), End("node"), Malformed]
  }

  /** The steps up to the cafe node's end tag, whatever the cap. */
  lemma DamagedCafePrefix(lat: string, lon: string, c: Coord, maxPois: int)
    requires ParseDecimal(lat) == Some(c.lat) && ParseDecimal(lon) == Some(c.lon)
    ensures ParseXml(DamagedCafeDocument(lat, lon), None, maxPois)
         == Run([End("node"), Malformed], XmlState(Some(c), map["amenity" := "cafe"], []), None, maxPois)
  {
    var s1 := XmlState(Some(c), map[], []);
    var s2 := XmlState(Some(c), map["amenity" := "cafe"], []);
    var t4 := [End("node"), Malformed];
    var t3 := [End("tag")] + t4;
    var t2 := [Cafe] + t3;
    var t1 := [Start("node", map["lat" := lat, "lon" := lon])] + t2;
    var doc := DamagedCafeDocument(lat, lon);
    calc {
      ParseXml(doc, None, maxPois);
      { assert doc == [Start("osm", map[])] + t1; assert doc[1..] == t1; }
      Run(t1, Initial, None, maxPois);
      { NodeStep(Initial, lat, lon, c, maxPois); RunContinues(t1[0], t2, Initial, s1, None, maxPois); }
      Run(t2, s1, None, maxPois);
      { CafeSteps(c, [], maxPois); RunContinues(Cafe, t3, s1, s2, None, maxPois); }
      Run(t3, s2, None, maxPois);
      { CafeSteps(c, [], maxPois); RunContinues(End("tag"), t4, s2, s2, None, maxPois); }
      Run(t4, s2, None, maxPois);
    }
  }

  /**
   * A document whose first POI is followed by malformed text: a cap of 1
   * stops before the damage and keeps the POI, a cap of 2 reads on, raises
   * and loses it. A larger cap can thus give fewer records.
   */
  lemma LargerCapCanLoseRecords(lat: string, lon: string, c: Coord)
    requires ParseDecimal(lat) == Some(c.lat) && ParseDecimal(lon) == Some(c.lon)
    ensures ParseXml(DamagedCafeDocument(lat, lon), None, 1) == [CafeRecord(c)]
    ensures ParseXml(DamagedCafeDocument(lat, lon), None, 2) == []
  {
    var p := CafeRecord(c);
    var s2 := XmlState(Some(c), map["amenity" := "cafe"], []);
    DamagedCafePrefix(lat, lon, c, 1);
    DamagedCafePrefix(lat, lon, c, 2);
    CafeSteps(c, [], 1);
    CafeSteps(c, [], 2);
    assert Run([Malformed], Reset([p]), None, 2) == [];
    RunContinues(End("node"), [Malformed], s2, Reset([p]), None, 2);
  }
}
