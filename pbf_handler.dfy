/**
 * The binary-entity path: the osmium handler object that receives one
 * decoded node at a time and appends at most one POI record to its
 * `pois` list, and `parse_osm_pbf`, which feeds it every node of a file.
 */
module PbfHandler {
  import opened Wrappers
  import opened Osm
  import opened StrictCategorizer
  import opened Descriptions

  /** A decoded node: its location and its tag list as the decoder yields it. */
  datatype OsmNode = OsmNode(lat: real, lon: real, tags: seq<(string, string)>)

  /**
   * What the decoder delivers for one file: the nodes decoded, and whether
   * decoding then failed (a truncated or corrupt file makes the decoder
   * raise after the nodes before the damage were delivered).
   */
  datatype PbfData = PbfData(nodes: seq<OsmNode>, corrupt: bool)

  /** `{tag.k: tag.v for tag in n.tags}`, pair by pair, a later pair overriding an earlier one. */
  function TagsOf(pairs: seq<(string, string)>): TagMap {
    if pairs == [] then map[]
    else
      var last := pairs[|pairs| - 1];
      TagsOf(pairs[..|pairs| - 1])[last.0 := last.1]
  }

  /** Every key appears, every entry comes from some pair, and the last pair wins; no pairs, no tags. */
  lemma {:induction false} TagsOfMeaning(pairs: seq<(string, string)>)
    ensures TagsOf(pairs) == map[] <==> pairs == []
    ensures forall i | 0 <= i < |pairs| :: pairs[i].0 in TagsOf(pairs)
    ensures forall k | k in TagsOf(pairs) :: exists i | 0 <= i < |pairs| :: pairs[i] == (k, TagsOf(pairs)[k])
    ensures pairs != [] ==> TagsOf(pairs)[pairs[|pairs| - 1].0] == pairs[|pairs| - 1].1
  {
    if pairs != [] {
      var init := pairs[..|pairs| - 1];
      var last := pairs[|pairs| - 1];
      TagsOfMeaning(init);
      var m := TagsOf(pairs);
      assert m == TagsOf(init)[last.0 := last.1];
      forall i | 0 <= i < |pairs|
        ensures pairs[i].0 in m
      {
        if i < |init| {
          assert init[i] == pairs[i];
        }
      }
      forall k | k in m
        ensures exists i | 0 <= i < |pairs| :: pairs[i] == (k, m[k])
      {
        if k == last.0 {
          assert pairs[|pairs| - 1] == (k, m[k]);
        } else {
          var j :| 0 <= j < |init| && init[j] == (k, TagsOf(init)[k]);
          assert pairs[j] == (k, m[k]);
        }
      }
    }
  }

  /** A pair whose key comes back in no later pair gives that key its value: a later tag wins. */
  lemma {:induction false} TagsOfLaterWins(pairs: seq<(string, string)>)
    ensures forall i | 0 <= i < |pairs| && (forall j | i < j < |pairs| :: pairs[j].0 != pairs[i].0) ::
      pairs[i].0 in TagsOf(pairs) && TagsOf(pairs)[pairs[i].0] == pairs[i].1
  {
    if pairs != [] {
      var init := pairs[..|pairs| - 1];
      var last := pairs[|pairs| - 1];
      TagsOfLaterWins(init);
      assert TagsOf(pairs) == TagsOf(init)[last.0 := last.1];
      forall i | 0 <= i < |pairs| && (forall j | i < j < |pairs| :: pairs[j].0 != pairs[i].0)
        ensures pairs[i].0 in TagsOf(pairs) && TagsOf(pairs)[pairs[i].0] == pairs[i].1
      {
        if i < |init| {
          assert init[i] == pairs[i];
          assert pairs[|pairs| - 1].0 != pairs[i].0;
          forall j | i < j < |init| ensures init[j].0 != init[i].0 {
            assert init[j] == pairs[j];
          }
        }
      }
    }
  }

  /**
   * The record `node` appends for `n` when the handler already holds
   * `count` records, or None when it returns early.
   */
  function Accept(count: nat, bounds: Option<Bounds>, maxPois: int, n: OsmNode): Option<Poi>
  {
    var tags := TagsOf(n.tags);
    if CapReached(count, maxPois) || !InBounds(n.lat, n.lon, bounds) || tags == map[] then None
    else match Categorize(tags)
      case None => None
      case Some(category) =>
        if ValidCoordinate(n.lat, n.lon) then
          Some(Poi(RecordName(tags, category), category, n.lat, n.lon, Describe(tags)))
        else None
  }

  /**
   * The early returns of `node`: no record exactly when the cap is reached,
   * the node lies outside the box, it has no tags, the strict table gives
   * no category or the coordinate is out of range; otherwise the record
   * carries the node's location, category, name and description.
   */
  lemma AcceptMeaning(count: nat, bounds: Option<Bounds>, maxPois: int, n: OsmNode, r: Option<Poi>)
    requires r == Accept(count, bounds, maxPois, n)
    ensures r.None? <==>
      CapReached(count, maxPois) || !InBounds(n.lat, n.lon, bounds) || n.tags == []
      || Categorize(TagsOf(n.tags)).None? || !ValidCoordinate(n.lat, n.lon)
    ensures r.Some? ==>
      && r.value.category == Categorize(TagsOf(n.tags)).value
      && r.value.latitude == n.lat && r.value.longitude == n.lon
      && r.value.description == Describe(TagsOf(n.tags))
      && r.value.name == RecordName(TagsOf(n.tags), r.value.category)
  {
  }

  /** A record the handler may emit: inside the box, in range, strictly categorized. */
  predicate HandlerRecordOk(p: Poi, bounds: Option<Bounds>) {
    InBounds(p.latitude, p.longitude, bounds) && ValidCoordinate(p.latitude, p.longitude)
    && p.category in StrictCategories
  }

  /** The handler object: the records collected so far, the box and the cap. */
  class PoiHandler {
    var pois: seq<Poi>
    const bounds: Option<Bounds>
    const maxPois: int

    constructor (bounds: Option<Bounds>, maxPois: int)
      ensures this.bounds == bounds && this.maxPois == maxPois && pois == []
    {
      this.bounds := bounds;
      this.maxPois := maxPois;
      pois := [];
    }

    /** The node callback: appends at most one record, as `Accept` says. */
    method Node(n: OsmNode)
      modifies this
      ensures pois == old(pois) + Accept(|old(pois)|, bounds, maxPois, n).ToSeq()
      ensures maxPois > 0 && |old(pois)| <= maxPois ==> |pois| <= maxPois
    {
      AcceptMeaning(|pois|, bounds, maxPois, n, Accept(|pois|, bounds, maxPois, n));
      TagsOfMeaning(n.tags);
      if maxPois != 0 && |pois| >= maxPois {
        return;
      }
      if bounds.Some? {
        var b := bounds.value;
        if !(b.minLat <= n.lat <= b.maxLat && b.minLng <= n.lon <= b.maxLng) {
          return;
        }
      }
      assert InBounds(n.lat, n.lon, bounds);
      var tags := TagsOf(n.tags);
      if tags == map[] {
        return;
      }
      var category := Categorize(tags);
      if category.None? {
        return;
      }
      var name := RecordName(tags, category.value);
      var description := Describe(tags);
      if !(-90.0 <= n.lat <= 90.0 && -180.0 <= n.lon <= 180.0) {
        return;
      }
      assert Accept(|pois|, bounds, maxPois, n) == Some(Poi(name, category.value, n.lat, n.lon, description));
      pois := pois + [Poi(name, category.value, n.lat, n.lon, description)];
    }
  }

  /** The handler's `pois` after it has been given `nodes`, one after another. */
  function HandlerPois(nodes: seq<OsmNode>, bounds: Option<Bounds>, maxPois: int): seq<Poi> {
    if nodes == [] then []
    else
      var prev := HandlerPois(nodes[..|nodes| - 1], bounds, maxPois);
      prev + Accept(|prev|, bounds, maxPois, nodes[|nodes| - 1]).ToSeq()
  }

  /** Feeding one more node appends what `Accept` gives for it. */
  lemma HandlerStep(nodes: seq<OsmNode>, i: nat, bounds: Option<Bounds>, maxPois: int)
    requires i < |nodes|
    ensures HandlerPois(nodes[..i + 1], bounds, maxPois)
      == HandlerPois(nodes[..i], bounds, maxPois)
         + Accept(|HandlerPois(nodes[..i], bounds, maxPois)|, bounds, maxPois, nodes[i]).ToSeq()
  {
    assert nodes[..i + 1][..i] == nodes[..i];
  }

  /**
   * `parse_osm_pbf`: a fresh handler sees every decoded node; a decoding
   * failure raises (None) and the records collected are lost with it.
   */
  method ParseOsmPbf(data: PbfData, bounds: Option<Bounds>, maxPois: int) returns (r: Option<seq<Poi>>)
    ensures r == if data.corrupt then None else Some(HandlerPois(data.nodes, bounds, maxPois))
  {
    var handler := new PoiHandler(bounds, maxPois);
    var i := 0;
    while i < |data.nodes|
      invariant 0 <= i <= |data.nodes|
      invariant handler.pois == HandlerPois(data.nodes[..i], bounds, maxPois)
    {
      HandlerStep(data.nodes, i, bounds, maxPois);
      handler.Node(data.nodes[i]);
      i := i + 1;
    }
    assert data.nodes[..i] == data.nodes by { assert i == |data.nodes|; }
    if data.corrupt {
      return None;
    }
    return Some(handler.pois);
  }

  /** A positive cap bounds the records of a whole file. */
  lemma {:induction false} HandlerCap(nodes: seq<OsmNode>, bounds: Option<Bounds>, maxPois: int)
    requires maxPois > 0
    ensures |HandlerPois(nodes, bounds, maxPois)| <= maxPois
  {
    if nodes != [] {
      HandlerCap(nodes[..|nodes| - 1], bounds, maxPois);
    }
  }

  /** A negative cap is truthy and already reached: nothing is ever accepted. */
  lemma {:induction false} HandlerNegativeCap(nodes: seq<OsmNode>, bounds: Option<Bounds>, maxPois: int)
    requires maxPois < 0
    ensures HandlerPois(nodes, bounds, maxPois) == []
  {
    if nodes != [] {
      HandlerNegativeCap(nodes[..|nodes| - 1], bounds, maxPois);
    }
  }

  /** Every record lies in the box and in the valid range and has a strict category. */
  lemma {:induction false} HandlerRecordsOk(nodes: seq<OsmNode>, bounds: Option<Bounds>, maxPois: int)
    ensures forall p | p in HandlerPois(nodes, bounds, maxPois) :: HandlerRecordOk(p, bounds)
  {
    if nodes != [] {
      var init := nodes[..|nodes| - 1];
      var last := nodes[|nodes| - 1];
      HandlerRecordsOk(init, bounds, maxPois);
      var count := |HandlerPois(init, bounds, maxPois)|;
      var r := Accept(count, bounds, maxPois, last);
      AcceptMeaning(count, bounds, maxPois, last, r);
      if r.Some? {
        CategorizeMeaning(TagsOf(last.tags), Categorize(TagsOf(last.tags)));
      }
    }
  }

  /**
   * Once the cap is reached, further nodes change nothing: giving the
   * handler the rest of the file is the same as stopping the decoder.
   */
  lemma {:induction false} HandlerSaturates(nodes: seq<OsmNode>, more: seq<OsmNode>, bounds: Option<Bounds>, maxPois: int)
    requires CapReached(|HandlerPois(nodes, bounds, maxPois)|, maxPois)
    ensures HandlerPois(nodes + more, bounds, maxPois) == HandlerPois(nodes, bounds, maxPois)
  {
    if more != [] {
      var init := more[..|more| - 1];
      HandlerSaturates(nodes, init, bounds, maxPois);
      assert (nodes + more)[..|nodes + more| - 1] == nodes + init;
    } else {
      assert nodes + more == nodes;
    }
  }

  /** Records come out in node order: the records of a prefix of the file are a prefix of the file's records. */
  lemma {:induction false} HandlerPrefix(nodes: seq<OsmNode>, more: seq<OsmNode>, bounds: Option<Bounds>, maxPois: int)
    ensures HandlerPois(nodes, bounds, maxPois) <= HandlerPois(nodes + more, bounds, maxPois)
  {
    if more != [] {
      var init := more[..|more| - 1];
      HandlerPrefix(nodes, init, bounds, maxPois);
      assert (nodes + more)[..|nodes + more| - 1] == nodes + init;
    } else {
      assert nodes + more == nodes;
    }
  }
}
