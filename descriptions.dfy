/**
 * The description builder of the XML/PBF converter (`get_description` on
 * the osmium handler and `get_description_xml`, two identical copies):
 * one labelled part per present tag, in a fixed order, joined with "; ",
 * or a fixed sentinel when no listed tag is present.
 */
module Descriptions {
  import opened Text
  import opened Osm

  const Sentinel: string := "OSM Point of Interest"
  const Separator: string := "; "

  /** One conditional append: `parts.append(caption + tags[key])` when `key in tags`. */
  function Part(tags: TagMap, key: string, caption: string): seq<string> {
    if key in tags then [caption + tags[key]] else []
  }

  /** The `parts` list, built by the seven conditional appends in source order. */
  function DescriptionParts(tags: TagMap): seq<string> {
    Part(tags, "amenity", "Amenity: ")
    + Part(tags, "shop", "Shop: ")
    + Part(tags, "tourism", "Tourism: ")
    + Part(tags, "addr:street", "Street: ")
    + Part(tags, "addr:city", "City: ")
    + Part(tags, "cuisine", "Cuisine: ")
    + Part(tags, "description", "")
  }

  /** `'; '.join(parts) if parts else 'OSM Point of Interest'`. */
  function Describe(tags: TagMap): string {
    var parts := DescriptionParts(tags);
    if parts == [] then Sentinel else Join(parts, Separator)
  }

  /** The order of the parts as a table: (tag key, label); the free-text description is unlabelled. */
  const DescriptionFields: seq<(string, string)> := [
    ("amenity", "Amenity: "),
    ("shop", "Shop: "),
    ("tourism", "Tourism: "),
    ("addr:street", "Street: "),
    ("addr:city", "City: "),
    ("cuisine", "Cuisine: "),
    ("description", "")
  ]

  /** Reference definition: the labelled values of the present fields, appended in table order. */
  function PartsFrom(fields: seq<(string, string)>, tags: TagMap): (r: seq<string>)
    ensures |r| <= |fields|
  {
    if fields == [] then []
    else
      var last := fields[|fields| - 1];
      PartsFrom(fields[..|fields| - 1], tags) + Part(tags, last.0, last.1)
  }

  /** The chain of appends yields exactly the table-driven parts. */
  lemma PartsFollowTable(tags: TagMap)
    ensures DescriptionParts(tags) == PartsFrom(DescriptionFields, tags)
  {
    var t1 := [("amenity", "Amenity: ")];
    var t2 := t1 + [("shop", "Shop: ")];
    var t3 := t2 + [("tourism", "Tourism: ")];
    var t4 := t3 + [("addr:street", "Street: ")];
    var t5 := t4 + [("addr:city", "City: ")];
    var t6 := t5 + [("cuisine", "Cuisine: ")];
    var t7 := t6 + [("description", "")];
    assert t7 == DescriptionFields;
    assert t1[..0] == [];
    assert PartsFrom(t1, tags) == Part(tags, "amenity", "Amenity: ");
    assert t2[..1] == t1 && t3[..2] == t2 && t4[..3] == t3 && t5[..4] == t4 && t6[..5] == t5 && t7[..6] == t6;
    assert PartsFrom(t2, tags) == PartsFrom(t1, tags) + Part(tags, "shop", "Shop: ");
    assert PartsFrom(t3, tags) == PartsFrom(t2, tags) + Part(tags, "tourism", "Tourism: ");
    assert PartsFrom(t4, tags) == PartsFrom(t3, tags) + Part(tags, "addr:street", "Street: ");
    assert PartsFrom(t5, tags) == PartsFrom(t4, tags) + Part(tags, "addr:city", "City: ");
    assert PartsFrom(t6, tags) == PartsFrom(t5, tags) + Part(tags, "cuisine", "Cuisine: ");
    assert PartsFrom(t7, tags) == PartsFrom(t6, tags) + Part(tags, "description", "");
  }

  /** No parts exactly when none of the table's keys is present. */
  lemma {:induction false} PartsFromEmpty(fields: seq<(string, string)>, tags: TagMap)
    ensures PartsFrom(fields, tags) == [] <==> forall i | 0 <= i < |fields| :: fields[i].0 !in tags
  {
    if fields != [] {
      var init := fields[..|fields| - 1];
      PartsFromEmpty(init, tags);
      assert forall i | 0 <= i < |init| :: fields[i] == init[i];
    }
  }

  /** Every present field contributes its labelled value to the parts. */
  lemma {:induction false} PartsFromHas(fields: seq<(string, string)>, tags: TagMap, i: nat)
    requires i < |fields| && fields[i].0 in tags
    ensures fields[i].1 + tags[fields[i].0] in PartsFrom(fields, tags)
  {
    if i < |fields| - 1 {
      PartsFromHas(fields[..|fields| - 1], tags, i);
    }
  }

  /** With none of the seven keys present the description is the sentinel. */
  lemma DescribeWithoutFields(tags: TagMap)
    requires forall i | 0 <= i < |DescriptionFields| :: DescriptionFields[i].0 !in tags
    ensures Describe(tags) == Sentinel
  {
    PartsFollowTable(tags);
    PartsFromEmpty(DescriptionFields, tags);
  }

  /**
   * With at least one of the seven keys present the description is the
   * parts joined with "; ", and it mentions every present field as
   * `label + value`.
   */
  lemma DescribeMentionsFields(tags: TagMap, i: nat)
    requires i < |DescriptionFields| && DescriptionFields[i].0 in tags
    ensures Describe(tags) == Join(PartsFrom(DescriptionFields, tags), Separator)
    ensures Contains(Describe(tags), DescriptionFields[i].1 + tags[DescriptionFields[i].0])
  {
    PartsFollowTable(tags);
    var parts := PartsFrom(DescriptionFields, tags);
    PartsFromHas(DescriptionFields, tags, i);
    var k :| 0 <= k < |parts| && parts[k] == DescriptionFields[i].1 + tags[DescriptionFields[i].0];
    JoinContainsPart(parts, Separator, k);
  }

  /** The empty tag set gives the sentinel. */
  lemma DescribeEmpty()
    ensures Describe(map[]) == Sentinel
  {
  }

  /** A restaurant with a cuisine: amenity first, then cuisine; the name is not part of it. */
  lemma DescribeRestaurant()
    ensures Describe(map["amenity" := "restaurant", "cuisine" := "italian", "name" := "Cafe X"])
         == "Amenity: restaurant; Cuisine: italian"
  {
    var tags := map["amenity" := "restaurant", "cuisine" := "italian", "name" := "Cafe X"];
    assert "amenity" in tags && tags["amenity"] == "restaurant";
    assert "Amenity: " + tags["amenity"] == "Amenity: restaurant";
    assert Part(tags, "amenity", "Amenity: ") == ["Amenity: restaurant"];
    assert "cuisine" in tags && tags["cuisine"] == "italian";
    assert "Cuisine: " + tags["cuisine"] == "Cuisine: italian";
    assert Part(tags, "cuisine", "Cuisine: ") == ["Cuisine: italian"];
    assert "shop" !in tags && "tourism" !in tags && "description" !in tags;
    assert "addr:street" !in tags && "addr:city" !in tags;
    assert DescriptionParts(tags) == ["Amenity: restaurant", "Cuisine: italian"];
  }
}
