/**
 * The values every extractor shares: an entity's tag set, the POI record
 * the extractors emit, the optional bounding box, and the start/end event
 * stream an incremental XML reader produces.
 */
module Osm {
  import opened Wrappers
  import opened Text

  /** An entity's tags: key to value, keys unique. */
  type TagMap = map<string, string>

  /** `tags.get(key, '')`: the value, or the empty string when the key is absent. */
  function Get(tags: TagMap, key: string): string {
    if key in tags then tags[key] else ""
  }

  /** A tag counts as set when Python finds its value truthy: present and non-empty. */
  predicate IsSet(tags: TagMap, key: string) {
    Get(tags, key) != ""
  }

  /** One output row: name, category, latitude, longitude, description. */
  datatype Poi = Poi(name: string, category: string, latitude: real, longitude: real, description: string)

  /** The optional `(min_lat, max_lat, min_lng, max_lng)` filter. */
  datatype Bounds = Bounds(minLat: real, maxLat: real, minLng: real, maxLng: real)

  /** With no box every point passes; with one, both coordinates must lie inside it. */
  predicate InBounds(lat: real, lon: real, bounds: Option<Bounds>) {
    match bounds
    case None => true
    case Some(b) => b.minLat <= lat <= b.maxLat && b.minLng <= lon <= b.maxLng
  }

  /** Latitude in [-90, 90] and longitude in [-180, 180]. */
  predicate ValidCoordinate(lat: real, lon: real) {
    -90.0 <= lat <= 90.0 && -180.0 <= lon <= 180.0
  }

  /** The cap test `max_pois and len(pois) >= max_pois`; a cap of 0 (or None) means no cap. */
  predicate CapReached(count: nat, maxPois: int) {
    maxPois != 0 && count >= maxPois
  }

  /** `f"Unknown {category.title()}"`. */
  function FallbackName(category: string): (r: string)
    ensures |r| == |category| + 8 && r[..8] == "Unknown " && r[8..] == Title(category)
  {
    "Unknown " + Title(category)
  }

  /** `tags.get('name', f"Unknown {category.title()}")`. */
  function RecordName(tags: TagMap, category: string): string {
    if "name" in tags then tags["name"] else FallbackName(category)
  }

  /** The fallback name of a nameless fuel station: "Unknown Gas_Station", the letter after `_` capitalised. */
  lemma FallbackNameGasStation(category: string)
    requires category == "gas_station"
    ensures FallbackName(category) == "Unknown Gas_Station"
  {
    var r := Title(category);
    assert r == "Gas_Station" by {
      assert UpperChar('g') == 'G' && UpperChar('s') == 'S';
      assert category[0] == 'g';
      assert category[1] == 'a';
      assert category[2] == 's';
      assert category[3] == '_';
      assert category[4] == 's';
      assert category[5] == 't';
      assert category[6] == 'a';
      assert category[7] == 't';
      assert category[8] == 'i';
      assert category[9] == 'o';
      assert category[10] == 'n';
      assert r[0] == 'G';
      assert r[1] == 'a';
      assert r[2] == 's';
      assert r[3] == '_';
      assert r[4] == 'S';
      assert r[5] == 't';
      assert r[6] == 'a';
      assert r[7] == 't';
      assert r[8] == 'i';
      assert r[9] == 'o';
      assert r[10] == 'n';
    }
  }

  /**
   * One event of an incremental XML reader: an element opens (with its
   * attributes), an element closes, or the reader raises because the
   * text is not well-formed.
   */
  datatype XmlEvent = Start(tag: string, attrs: map<string, string>) | End(tag: string) | Malformed

  /** `elem.get(name)`, with a missing attribute read as the (equally falsy) empty string. */
  function Attr(attrs: map<string, string>, name: string): string {
    if name in attrs then attrs[name] else ""
  }
}
