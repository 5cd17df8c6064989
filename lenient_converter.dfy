/**
 * The XML-only converter: its `parse_osm_xml` event loop (any `<node>`
 * or `<way>` opens an entity whose `<tag>` children are collected; the end
 * of a named node with coordinates and a POI tag emits a record), its
 * file-name filter, and the budget loop of `process_geofabrik_data`.
 */
module LenientConverter {
  import opened Wrappers
  import opened Text
  import opened Osm
  import opened LenientCategorizer
  import StrictConverter

  /** `find_osm_files` of this converter: `.osm`, `.osm.bz2` or `.osm.pbf`, but not `.osm.gz`. */
  predicate IsOsmFile(name: string) {
    EndsWith(name, ".osm") || EndsWith(name, ".osm.bz2") || EndsWith(name, ".osm.pbf")
  }

  /**
   * `current_element`, `current_tags`, `current_lat`, `current_lon` and
   * `pois`; a missing coordinate attribute reads as the empty string.
   */
  datatype LenientState = LenientState(inEntity: bool, tags: TagMap, lat: string, lon: string, pois: seq<Poi>)

  /** What one event does: carry on, stop at the cap (`break`), or raise. */
  datatype Step = Continue(next: LenientState) | Finish(pois: seq<Poi>) | Raise

  const Initial: LenientState := LenientState(false, map[], "", "", [])

  /** The state after the end of a node or way: everything but the records is cleared. */
  function Cleared(pois: seq<Poi>): LenientState {
    LenientState(false, map[], "", "", pois)
  }

  /** The end of a node emits a record when it had both coordinates, a name and a POI tag. */
  predicate Emits(st: LenientState) {
    st.lat != "" && st.lon != "" && Get(st.tags, "name") != ""
    && (IsSet(st.tags, "amenity") || IsSet(st.tags, "shop") || IsSet(st.tags, "tourism") || IsSet(st.tags, "healthcare"))
  }

  /** The first non-empty of amenity, shop and tourism, with the cuisine in parentheses when there is one, stripped. */
  function Description(tags: TagMap): (r: string)
    ensures IsSet(tags, "cuisine") ==> r != [] && r[|r| - 1] == ')'
  {
    var kind := if IsSet(tags, "amenity") then Get(tags, "amenity")
                else if IsSet(tags, "shop") then Get(tags, "shop")
                else Get(tags, "tourism");
    var text := if IsSet(tags, "cuisine") then kind + " (" + Get(tags, "cuisine") + ")" else kind;
    StripKeepsLastChar(text);
    Strip(text)
  }

  /** Stripping text whose last character is `)` keeps that character last. */
  lemma StripKeepsLastChar(s: string)
    ensures s != [] && s[|s| - 1] == ')' ==> Strip(s) != [] && Strip(s)[|Strip(s)| - 1] == ')'
  {
    if s != [] && s[|s| - 1] == ')' {
      assert !IsSpace(s[|s| - 1]);
      var t := LStrip(s);
      assert |s| - |t| <= |s| - 1;
      assert t[|t| - 1] == ')' by { assert t == s[|s| - |t|..]; }
      assert RStrip(t) == t;
    }
  }

  /** The record a node emits, once both coordinates are parsed. */
  function Record(tags: TagMap, lat: real, lon: real): Poi {
    Poi(Strip(Get(tags, "name")), Categorize(tags), lat, lon, Description(tags))
  }

  /** The effect of one event after the root. */
  function StepEvent(st: LenientState, ev: XmlEvent, maxPois: int): Step
  {
    match ev
    case Malformed => Raise
    case Start(tag, attrs) =>
      if tag == "node" then Continue(LenientState(true, map[], Attr(attrs, "lat"), Attr(attrs, "lon"), st.pois))
      else if tag == "way" then Continue(st.(inEntity := true, tags := map[]))
      else if tag == "tag" && st.inEntity then
        var k, v := Attr(attrs, "k"), Attr(attrs, "v");
        if k != "" && v != "" then Continue(st.(tags := st.tags[k := v])) else Continue(st)
      else Continue(st)
    case End(tag) =>
      if tag == "node" && Emits(st) then
        match (ParseDecimal(st.lat), ParseDecimal(st.lon))
        case (Some(a), Some(b)) =>
          var pois := st.pois + [Record(st.tags, a, b)];
          if |pois| >= maxPois then Finish(pois) else Continue(Cleared(pois))
        case _ => Raise
      else if tag == "node" || tag == "way" then Continue(Cleared(st.pois))
      else Continue(st)
  }

  /**
   * What one event may do: only a node's end stops the pass, and then at
   * the cap; tags outside an entity are ignored; the end of a node or way
   * clears everything but the records; a node's end that emits appends
   * exactly its record; and the pass raises exactly on malformed text or
   * an emitting node whose coordinates do not parse.
   */
  lemma StepMeaning(st: LenientState, ev: XmlEvent, maxPois: int, r: Step)
    requires r == StepEvent(st, ev, maxPois)
    ensures ev.Start? && ev.tag == "node" ==>
      r == Continue(LenientState(true, map[], Attr(ev.attrs, "lat"), Attr(ev.attrs, "lon"), st.pois))
    ensures ev.Start? && ev.tag == "way" ==> r == Continue(st.(inEntity := true, tags := map[]))
    ensures ev.Start? && ev.tag !in {"node", "way", "tag"} ==> r == Continue(st)
    ensures ev.End? && ev.tag !in {"node", "way"} ==> r == Continue(st)
    ensures r.Finish? ==> ev == End("node") && Emits(st) && |r.pois| == |st.pois| + 1 && |r.pois| >= maxPois
    ensures ev.Start? && ev.tag == "tag" && !st.inEntity ==> r == Continue(st)
    ensures ev.Start? && ev.tag == "tag" && st.inEntity ==>
      r == Continue(if Attr(ev.attrs, "k") != "" && Attr(ev.attrs, "v") != ""
                    then st.(tags := st.tags[Attr(ev.attrs, "k") := Attr(ev.attrs, "v")]) else st)
    ensures r.Continue? && !(ev == End("node") && Emits(st)) ==> r.next.pois == st.pois
    ensures ev.End? && ev.tag in {"node", "way"} && r.Continue? ==> r.next == Cleared(r.next.pois)
    ensures ev == End("node") && !Emits(st) ==> r == Continue(Cleared(st.pois))
    ensures ev == End("node") && Emits(st) && !r.Raise? ==>
      var out := if r.Finish? then r.pois else r.next.pois;
      && |out| == |st.pois| + 1 && out[..|st.pois|] == st.pois
      && ParseDecimal(st.lat).Some? && ParseDecimal(st.lon).Some?
      && out[|st.pois|] == Record(st.tags, ParseDecimal(st.lat).value, ParseDecimal(st.lon).value)
    ensures r.Raise? <==> ev.Malformed? || (ev == End("node") && Emits(st) && (ParseDecimal(st.lat).None? || ParseDecimal(st.lon).None?))
  {
  }

  /** The records after the remaining events, starting from `st`; an exception gives none. */
  function Run(events: seq<XmlEvent>, st: LenientState, maxPois: int): seq<Poi>
    decreases |events|
  {
    if events == [] then st.pois
    else match StepEvent(st, events[0], maxPois)
      case Continue(next) => Run(events[1..], next, maxPois)
      case Finish(pois) => pois
      case Raise => []
  }

  /** The records of one file: the root event is skipped, an empty or malformed start raises. */
  function ParseXml(events: seq<XmlEvent>, maxPois: int): seq<Poi> {
    if events == [] || events[0].Malformed? then [] else Run(events[1..], Initial, maxPois)
  }

  /** One turn of the event loop: the run from event `i` is one step followed by the run from event `i + 1`. */
  lemma RunStep(events: seq<XmlEvent>, i: nat, st: LenientState, maxPois: int)
    requires i < |events|
    ensures Run(events[i..], st, maxPois) ==
      match StepEvent(st, events[i], maxPois)
      case Continue(next) => Run(events[i + 1..], next, maxPois)
      case Finish(pois) => pois
      case Raise => []
  {
    assert events[i..][1..] == events[i + 1..];
  }

  /** The end of a node that emits: the pass raises unless both coordinates parse, and otherwise appends the record. */
  lemma EmitStep(st: LenientState, maxPois: int)
    requires Emits(st)
    ensures StepEvent(st, End("node"), maxPois) ==
      match (ParseDecimal(st.lat), ParseDecimal(st.lon))
      case (Some(a), Some(b)) =>
        var pois := st.pois + [Record(st.tags, a, b)];
        if |pois| >= maxPois then Finish(pois) else Continue(Cleared(pois))
      case _ => Raise
  {
  }

  /** Any other end tag: a node or way end clears the entity, others change nothing. */
  lemma QuietEndStep(st: LenientState, tag: string, maxPois: int)
    requires !(tag == "node" && Emits(st))
    ensures StepEvent(st, End(tag), maxPois) ==
      if tag == "node" || tag == "way" then Continue(Cleared(st.pois)) else Continue(st)
  {
  }

  /** The `start` branch of the event loop: a node or way opens an entity, a tag inside one records its non-empty key and value. */
  method StartElement(tag: string, attrs: map<string, string>, inEntity: bool, tags: TagMap, lat: string, lon: string,
                      ghost pois: seq<Poi>, ghost maxPois: int)
    returns (inEntity': bool, tags': TagMap, lat': string, lon': string)
    ensures StepEvent(LenientState(inEntity, tags, lat, lon, pois), Start(tag, attrs), maxPois)
         == Continue(LenientState(inEntity', tags', lat', lon', pois))
  {
    inEntity', tags', lat', lon' := inEntity, tags, lat, lon;
    if tag == "node" {
      lat', lon' := Attr(attrs, "lat"), Attr(attrs, "lon");
      tags' := map[];
      inEntity' := true;
    } else if tag == "way" {
      tags' := map[];
      inEntity' := true;
    } else if tag == "tag" && inEntity {
      var k, v := Attr(attrs, "k"), Attr(attrs, "v");
      if k != "" && v != "" {
        tags' := tags[k := v];
      }
    }
  }

  /**
   * The `end` branch of the event loop: a node with both coordinates, a
   * name and a POI tag appends its record (raising when a coordinate does
   * not parse, stopping at the cap); a node or way end then clears the
   * entity.
   */
  method EndElement(tag: string, inEntity: bool, tags: TagMap, lat: string, lon: string, pois: seq<Poi>, count: nat, maxPois: int)
    returns (r: Step)
    requires count == |pois|
    ensures r == StepEvent(LenientState(inEntity, tags, lat, lon, pois), End(tag), maxPois)
  {
    ghost var st := LenientState(inEntity, tags, lat, lon, pois);
    if !(tag == "node" && Emits(st)) {
      QuietEndStep(st, tag, maxPois);
    }
    var all, total := pois, count;
    if tag == "node" && lat != "" && lon != "" {
      var name := Get(tags, "name");
      if name != "" && (IsSet(tags, "amenity") || IsSet(tags, "shop") || IsSet(tags, "tourism") || IsSet(tags, "healthcare")) {
        var category := Categorize(tags);
        var a, b := ParseDecimal(lat), ParseDecimal(lon);
        EmitStep(st, maxPois);
        if a.None? || b.None? {
          return Raise;
        }
        all := all + [Poi(Strip(name), category, a.value, b.value, Description(tags))];
        total := total + 1;
        if total >= maxPois {
          return Finish(all);
        }
      }
    }
    if tag == "node" || tag == "way" {
      return Continue(Cleared(all));
    }
    return Continue(LenientState(inEntity, tags, lat, lon, all));
  }

  /** The event loop, as the source writes it. */
  method ParseOsmXml(events: seq<XmlEvent>, maxPois: int) returns (pois: seq<Poi>)
    ensures pois == ParseXml(events, maxPois)
  {
    if events == [] || events[0].Malformed? {
      return [];
    }
    var inEntity := false;
    var tags: TagMap := map[];
    var lat, lon := "", "";
    pois := [];
    var count := 0;
    var i := 1;
    while i < |events|
      invariant 1 <= i <= |events|
      invariant count == |pois|
      invariant Run(events[i..], LenientState(inEntity, tags, lat, lon, pois), maxPois) == ParseXml(events, maxPois)
    {
      var ev := events[i];
      RunStep(events, i, LenientState(inEntity, tags, lat, lon, pois), maxPois);
      match ev {
        case Malformed =>
          return [];
        case Start(tag, attrs) =>
          inEntity, tags, lat, lon := StartElement(tag, attrs, inEntity, tags, lat, lon, pois, maxPois);
        case End(tag) =>
          var step := EndElement(tag, inEntity, tags, lat, lon, pois, count, maxPois);
          match step {
            case Raise => return [];
            case Finish(all) => return all;
            case Continue(next) =>
              inEntity, tags, lat, lon, pois := next.inEntity, next.tags, next.lat, next.lon, next.pois;
              count := |pois|;
          }
      }
      i := i + 1;
    }
    assert events[i..] == [] by { assert i == |events|; }
  }

  /** A record of this path: a lenient category, no whitespace at either end of name and description. */
  predicate RecordOk(p: Poi) {
    p.category in LenientCategories
    && (p.name == [] || (!IsSpace(p.name[0]) && !IsSpace(p.name[|p.name| - 1])))
    && (p.description == [] || (!IsSpace(p.description[0]) && !IsSpace(p.description[|p.description| - 1])))
  }

  /** Every record a node can emit is good. */
  lemma RecordIsOk(tags: TagMap, lat: real, lon: real)
    ensures RecordOk(Record(tags, lat, lon))
  {
  }

  /** The records and the count the run carries between events. */
  predicate StateOk(st: LenientState, maxPois: int) {
    (forall p | p in st.pois :: RecordOk(p)) && (|st.pois| < maxPois || st.pois == [])
  }

  /** One event keeps the state good; a stop at the cap delivers good records, at most `max(max_pois, 1)` of them. */
  lemma StepOk(st: LenientState, ev: XmlEvent, maxPois: int)
    requires StateOk(st, maxPois)
    ensures match StepEvent(st, ev, maxPois)
      case Continue(next) => StateOk(next, maxPois)
      case Finish(pois) => (forall p | p in pois :: RecordOk(p)) && |pois| <= if maxPois >= 1 then maxPois else 1
      case Raise => true
  {
    match ev
    case Malformed =>
    case Start(_, _) =>
      assert StepEvent(st, ev, maxPois).Continue? && StepEvent(st, ev, maxPois).next.pois == st.pois;
    case End(tag) =>
      if tag == "node" && Emits(st) && ParseDecimal(st.lat).Some? && ParseDecimal(st.lon).Some? {
        var lat, lon := ParseDecimal(st.lat).value, ParseDecimal(st.lon).value;
        RecordIsOk(st.tags, lat, lon);
        var pois := st.pois + [Record(st.tags, lat, lon)];
        assert forall p | p in pois :: RecordOk(p);
        assert StepEvent(st, ev, maxPois) == if |pois| >= maxPois then Finish(pois) else Continue(Cleared(pois));
      } else if !(tag == "node" && Emits(st)) {
        assert StepEvent(st, ev, maxPois).Continue? && StepEvent(st, ev, maxPois).next.pois == st.pois;
      }
  }

  /** Records are good and a run stops at the cap: at most `max_pois` for a positive cap, at most one otherwise. */
  lemma {:induction false} RunOk(events: seq<XmlEvent>, st: LenientState, maxPois: int)
    requires StateOk(st, maxPois)
    ensures forall p | p in Run(events, st, maxPois) :: RecordOk(p)
    ensures |Run(events, st, maxPois)| <= if maxPois >= 1 then maxPois else 1
    decreases |events|
  {
    if events != [] {
      StepOk(st, events[0], maxPois);
      match StepEvent(st, events[0], maxPois)
      case Continue(next) => RunOk(events[1..], next, maxPois);
      case Finish(pois) =>
      case Raise =>
    }
  }

  /** The guarantees of one file. */
  lemma XmlRecordsOk(events: seq<XmlEvent>, maxPois: int)
    ensures forall p | p in ParseXml(events, maxPois) :: RecordOk(p)
    ensures |ParseXml(events, maxPois)| <= if maxPois >= 1 then maxPois else 1
  {
    if events != [] && !events[0].Malformed? {
      RunOk(events[1..], Initial, maxPois);
    }
  }

  /**
   * The loop of `process_geofabrik_data` from `acc` on: each file gets
   * `max_pois - total_pois`; a file with records adds them and the loop
   * stops once the total reaches the cap.
   */
  function Collect(files: seq<seq<XmlEvent>>, maxPois: int, acc: seq<Poi>): seq<Poi>
    decreases |files|
  {
    if files == [] then acc
    else
      var pois := ParseXml(files[0], maxPois - |acc|);
      if |pois| > 0 && |acc + pois| >= maxPois then acc + pois
      else Collect(files[1..], maxPois, acc + pois)
  }

  /** One turn of the file loop. */
  lemma CollectStep(files: seq<seq<XmlEvent>>, i: nat, maxPois: int, acc: seq<Poi>)
    requires i < |files|
    ensures Collect(files[i..], maxPois, acc) ==
      var pois := ParseXml(files[i], maxPois - |acc|);
      if |pois| > 0 && |acc + pois| >= maxPois then acc + pois
      else Collect(files[i + 1..], maxPois, acc + pois)
  {
    assert files[i..][1..] == files[i + 1..];
  }

  /**
   * `process_geofabrik_data` after the input check and the file listing:
   * False for a missing input, an empty listing or no records at all.
   */
  method Process(inputExists: bool, files: seq<seq<XmlEvent>>, maxPois: int) returns (ok: bool, all: seq<Poi>)
    ensures ok <==> inputExists && files != [] && Collect(files, maxPois, []) != []
    ensures all == if ok then Collect(files, maxPois, []) else []
  {
    if !inputExists || files == [] {
      return false, [];
    }
    var total := 0;
    all := [];
    var i := 0;
    while i < |files|
      invariant 0 <= i <= |files|
      invariant total == |all|
      invariant Collect(files[i..], maxPois, all) == Collect(files, maxPois, [])
    {
      var extracted := ParseOsmXml(files[i], maxPois - total);
      CollectStep(files, i, maxPois, all);
      if |extracted| > 0 {
        all := all + extracted;
        total := total + |extracted|;
        if total >= maxPois {
          break;
        }
      } else {
        assert all + extracted == all by { assert extracted == []; }
      }
      i := i + 1;
    }
    if all == [] {
      return false, [];
    }
    return true, all;
  }

  /** The total over all files respects a positive cap, and is at most one record for a cap of 0 or below. */
  lemma {:induction false} CollectCap(files: seq<seq<XmlEvent>>, maxPois: int, acc: seq<Poi>)
    requires |acc| < maxPois || acc == []
    ensures |Collect(files, maxPois, acc)| <= if maxPois >= 1 then maxPois else 1
    decreases |files|
  {
    if files != [] {
      var pois := ParseXml(files[0], maxPois - |acc|);
      XmlRecordsOk(files[0], maxPois - |acc|);
      if !(|pois| > 0 && |acc + pois| >= maxPois) {
        CollectCap(files[1..], maxPois, acc + pois);
      }
    }
  }

  /** Collecting keeps what was collected before, in front: records come out file by file. */
  lemma {:induction false} CollectExtends(files: seq<seq<XmlEvent>>, maxPois: int, acc: seq<Poi>)
    ensures acc <= Collect(files, maxPois, acc)
    decreases |files|
  {
    if files != [] {
      var pois := ParseXml(files[0], maxPois - |acc|);
      if !(|pois| > 0 && |acc + pois| >= maxPois) {
        CollectExtends(files[1..], maxPois, acc + pois);
      }
    }
  }

  /**
   * This converter hands the raw file to the XML reader without
   * decompressing it, so a `.osm.bz2` or `.osm.pbf` file that its filter
   * keeps is malformed from its first event: it adds nothing and the loop
   * goes on with the next file.
   */
  lemma UnreadableFileSkipped(f: seq<XmlEvent>, rest: seq<seq<XmlEvent>>, maxPois: int, acc: seq<Poi>)
    requires f != [] && f[0].Malformed?
    ensures IsOsmFile("map.osm.bz2") && IsOsmFile("map.osm.pbf")
    ensures Collect([f] + rest, maxPois, acc) == Collect(rest, maxPois, acc)
  {
    assert "map.osm.bz2"[3..] == ".osm.bz2";
    assert "map.osm.pbf"[3..] == ".osm.pbf";
    assert ([f] + rest)[0] == f && ([f] + rest)[1..] == rest;
    assert acc + [] == acc;
  }

  // A concrete document. The root element is `osm`.

  /** The tags of a node named "Corner" with `amenity=cafe`. */
  const CafeTags: TagMap := map["name" := "Corner", "amenity" := "cafe"]

  /** An event that carries on hands the rest of the document to the next state. */
  lemma RunContinues(ev: XmlEvent, rest: seq<XmlEvent>, st: LenientState, next: LenientState, maxPois: int)
    requires StepEvent(st, ev, maxPois) == Continue(next)
    ensures Run([ev] + rest, st, maxPois) == Run(rest, next, maxPois)
  {
    assert ([ev] + rest)[1..] == rest;
  }

  /** The states a named cafe node passes through, from its start to the end of its last tag. */
  lemma CafeSteps(lat: string, lon: string, maxPois: int)
    requires lat != "" && lon != ""
    ensures var s1 := LenientState(true, map[], lat, lon, []);
      var s2 := s1.(tags := map["name" := "Corner"]);
      var s3 := s1.(tags := CafeTags);
      && StepEvent(Initial, Start("node", map["lat" := lat, "lon" := lon]), maxPois) == Continue(s1)
      && StepEvent(s1, Start("tag", map["k" := "name", "v" := "Corner"]), maxPois) == Continue(s2)
      && StepEvent(s2, End("tag"), maxPois) == Continue(s2)
      && StepEvent(s2, Start("tag", map["k" := "amenity", "v" := "cafe"]), maxPois) == Continue(s3)
      && StepEvent(s3, End("tag"), maxPois) == Continue(s3)
      && Emits(s3)
  {
    var node := map["lat" := lat, "lon" := lon];
    var name := map["k" := "name", "v" := "Corner"];
    var cafe := map["k" := "amenity", "v" := "cafe"];
    assert Attr(node, "lat") == lat && Attr(node, "lon") == lon;
    assert Attr(name, "k") == "name" && Attr(name, "v") == "Corner";
    assert Attr(cafe, "k") == "amenity" && Attr(cafe, "v") == "cafe";
    assert map["name" := "Corner"]["amenity" := "cafe"] == CafeTags;
    assert Get(CafeTags, "name") == "Corner" && Get(CafeTags, "amenity") == "cafe";
  }

  /**
   * A document holding one named cafe node gives exactly that node's record,
   * at the coordinates parsed from its own `lat` and `lon`, whatever the cap.
   */
  lemma OneCafeDocument(lat: string, lon: string, a: real, b: real, maxPois: int)
    requires ParseDecimal(lat) == Some(a) && ParseDecimal(lon) == Some(b)
    ensures ParseXml([Start("osm", map[]), Start("node", map["lat" := lat, "lon" := lon]),
                      Start("tag", map["k" := "name", "v" := "Corner"]), End("tag"),
                      Start("tag", map["k" := "amenity", "v" := "cafe"]), End("tag"),
                      End("node"), End("osm")], maxPois)
         == [Record(CafeTags, a, b)]
  {
    var e1 := Start("node", map["lat" := lat, "lon" := lon]);
    var e2 := Start("tag", map["k" := "name", "v" := "Corner"]);
    var e4 := Start("tag", map["k" := "amenity", "v" := "cafe"]);
    var s1 := LenientState(true, map[], lat, lon, []);
    var s2 := s1.(tags := map["name" := "Corner"]);
    var s3 := s1.(tags := CafeTags);
    var t6 := [End("node"), End("osm")];
    var t5 := [End("tag")] + t6;
    var t4 := [e4] + t5;
    var t3 := [End("tag")] + t4;
    var t2 := [e2] + t3;
    var t1 := [e1] + t2;
    var doc := [Start("osm", map[])] + t1;
    assert doc == [Start("osm", map[]), e1, e2, End("tag"), e4, End("tag"), End("node"), End("osm")];
    CafeSteps(lat, lon, maxPois);
    calc {
      ParseXml(doc, maxPois);
      { assert doc[1..] == t1; }
      Run(t1, Initial, maxPois);
      { RunContinues(e1, t2, Initial, s1, maxPois); }
      Run(t2, s1, maxPois);
      { RunContinues(e2, t3, s1, s2, maxPois); }
      Run(t3, s2, maxPois);
      { RunContinues(End("tag"), t4, s2, s2, maxPois); }
      Run(t4, s2, maxPois);
      { RunContinues(e4, t5, s2, s3, maxPois); }
      Run(t5, s3, maxPois);
      { RunContinues(End("tag"), t6, s3, s3, maxPois); }
      Run(t6, s3, maxPois);
      { EmitStep(s3, maxPois); EmitThenRoot(s3, [Record(CafeTags, a, b)], maxPois); }
      [Record(CafeTags, a, b)];
    }
  }

  /** A node end that appends `out` followed by the root's end: the pass returns `out`, whether or not it stopped at the cap. */
  lemma EmitThenRoot(st: LenientState, out: seq<Poi>, maxPois: int)
    requires StepEvent(st, End("node"), maxPois) == if |out| >= maxPois then Finish(out) else Continue(Cleared(out))
    ensures Run([End("node"), End("osm")], st, maxPois) == out
  {
    if |out| < maxPois {
      RunContinues(End("node"), [End("osm")], st, Cleared(out), maxPois);
      RunContinues(End("osm"), [], Cleared(out), Cleared(out), maxPois);
      assert [End("node"), End("osm")] == [End("node")] + [End("osm")];
      assert [End("osm")] == [End("osm")] + [];
    }
  }

  /** Every file name this converter accepts is accepted by the XML/PBF converter, which in addition accepts exactly the `.osm.gz` names. */
  lemma FiltersCompared(name: string)
    ensures IsOsmFile(name) ==> StrictConverter.IsOsmFile(name)
    ensures StrictConverter.IsOsmFile(name) && !IsOsmFile(name) <==> EndsWith(name, ".osm.gz")
  {
    if EndsWith(name, ".osm.gz") {
      var n := |name|;
      assert name[n - 1] == 'z';
      assert !EndsWith(name, ".osm") by { assert ".osm"[3] == 'm'; }
      assert !EndsWith(name, ".osm.bz2") by { assert ".osm.bz2"[7] == '2'; }
      assert !EndsWith(name, ".osm.pbf") by { assert ".osm.pbf"[7] == 'f'; }
    }
  }
}
